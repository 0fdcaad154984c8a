/** The jitter buffer of jitter.c.  Timestamps are kept unwrapped; every comparison is the code's 32-bit one.  Packet
    data is copied, as without a destroy callback. */
module JitterBuffers {
  import opened DelayEstimate
  import opened JitterTime
  import opened MachineWords
  import opened PacketSlots
  import opened Remainders
  import opened Timings
  import opened Wrappers

  const MAX_LATE_RATE := 4
  const INITIAL_TRADEOFF := 32000
  const LOST_LIMIT := 20

  datatype Status = Ok | Missing | Insertion

  /** What a get hands to the application. */
  datatype Got = Got(status: Status, data: seq<bv8>, timestamp: int, span: int, sequence: int, userData: int,
      offset: int)

  function Report(status: Status, timestamp: int, span: int): Got { Got(status, [], timestamp, span, 0, 0, 0) }

  /** A packet handed over: data that does not fit the application's buffer is cut off. */
  function Handed(p: Packet, capacity: nat, offset: int): Got {
    var data := if |p.data| > capacity then p.data[..capacity] else p.data;
    Got(Ok, data, p.timestamp, p.span, p.sequence, p.userData, offset)
  }

  /** The slot a put uses: the first empty one, or the earliest packet's in a full buffer. */
  ghost predicate RoomAt(s: Slots, i: int) {
    && 0 <= i < |s|
    && (s[i].None? ==> forall k :: 0 <= k < i ==> s[k].Some?)
    && (s[i].Some? ==> (forall k :: 0 <= k < |s| ==> s[k].Some?) && i == EarliestIndex(s, |s|))
  }

  /** What a put does to the slots s: p goes to slot at, or nothing happens when it ends too long before the pointer. */
  ghost predicate PutAt(s: Slots, p: Packet, at: int, resetState: bool, pointer: int, step: int, after: Slots) {
    if resetState || GE32(p.End() + step, pointer) then RoomAt(s, at) && after == s[at := Some(p)]
    else at == -1 && after == s
  }

  /** A put on the slots s, with no loss run behind it.  Every other slot keeps its packet unless that ended by the
      pointer.  p goes to the first slot free then, or, when all hold packets still to be played, in place of the
      earliest; it is turned away exactly if it ends more than a step before the pointer. */
  ghost predicate PutIs(s: Slots, p: Packet, at: int, resetState: bool, pointer: int, step: int, after: Slots) {
    && |after| == |s|
    && (forall i :: 0 <= i < |s| && i != at ==>
          after[i] == if s[i].Some? && (resetState || GT32(s[i].value.timestamp + s[i].value.span, pointer)) then s[i]
                      else None)
    && (at == -1 <==> !resetState && LT32(p.timestamp + p.span + step, pointer))
    && (at != -1 ==> 0 <= at < |s| && after[at] == Some(p) && forall k :: 0 <= k < at ==> after[k].Some?)
    && (at != -1 && s[at].Some? && (resetState || GT32(s[at].value.timestamp + s[at].value.span, pointer)) ==>
          && (forall k :: 0 <= k < |s| ==>
                s[k].Some? && (resetState || GT32(s[k].value.timestamp + s[k].value.span, pointer)))
          && at == EarliestIndex(s, |s|))
  }

  lemma PutMeans(s: Slots, p: Packet, at: int, resetState: bool, pointer: int, step: int, after: Slots)
    requires PutAt(if resetState then s else Cleaned(s, pointer), p, at, resetState, pointer, step, after)
    ensures PutIs(s, p, at, resetState, pointer, step, after)
  {
    hide Wrap32, EarliestIndex;
    var t := if resetState then s else Cleaned(s, pointer);
    if at != -1 && t[at].Some? {
      assert forall k :: 0 <= k < |s| ==> t[k].Some?;
      assert t == s;
    }
  }

  /** The slots a put finds once it has cleaned up, and has reset after too many losses. */
  function BeforeStore(s: Slots, resetState: bool, pointer: int, lostCount: int): Slots {
    if lostCount > LOST_LIMIT then NoPackets() else if resetState then s else Cleaned(s, pointer)
  }

  /** A loss: conceal it, or insert more when the delay has to grow. */
  function LossReport(opt: int, pointer: int, span: int, concealment: int): Got
    requires concealment > 0
  {
    if opt < 0 then Report(Insertion, pointer, -opt) else Report(Missing, pointer, RoundDown(span, concealment))
  }

  class JitterBuffer {
    var pointerTimestamp: int
    var lastReturned: int
    var nextStop: int
    var buffered: int
    var packets: Slots
    var arrival: seq<int>
    var delayStep: int
    var concealmentSize: int
    var resetState: bool
    var bufferMargin: int
    var interpRequested: int
    var autoAdjust: bool
    const windows: Windows
    var windowSize: int
    var subwindowSize: int
    var maxLateRate: int
    var latencyTradeoff: int
    var autoTradeoff: int
    var lostCount: int

    /** The fate of every packet ever put. */
    ghost var accepted: multiset<Packet>
    ghost var returned: multiset<Packet>
    ghost var discarded: multiset<Packet>

    ghost predicate Shape()
      reads this`packets, this`arrival
    {
      |packets| == |arrival| == MAX_BUFFER_SIZE
    }

    ghost function Repr(): set<object> { {this, windows} + windows.Repr() }

    /** Each accepted packet is stored, was returned, or was discarded: exactly one of the three, as often as it was
        put. */
    ghost predicate Conserved()
      reads this`packets, this`accepted, this`returned, this`discarded
    {
      accepted == Stored(packets) + returned + discarded
    }

    /** Where playing has got to, counting the interpolation that is still owed. */
    ghost function Progress(): int
      reads this`pointerTimestamp, this`interpRequested
    {
      pointerTimestamp + interpRequested
    }

    /** The statistics are objects of their own. */
    ghost predicate Separate() {
      && (windows as object) != this && (this as object) !in windows.Repr() && (windows as object) !in windows.Repr()
    }

    /** The part of the invariant that needs no statistics. */
    ghost predicate Core()
      reads this`packets, this`arrival, this`accepted, this`returned, this`discarded, this`delayStep
      reads this`concealmentSize
    {
      Shape() && delayStep > 0 && concealmentSize > 0 && Conserved()
    }

    ghost predicate Valid()
      reads this`packets, this`arrival, this`accepted, this`returned, this`discarded, this`delayStep
      reads this`concealmentSize
      reads windows, windows.Repr()
    {
      Core() && Separate() && windows.Valid()
    }

    /** jitter_buffer_init */
    constructor (stepSize: int)
      requires stepSize > 0
      ensures Valid() && fresh(Repr())
      ensures resetState && autoAdjust && interpRequested == 0 && bufferMargin == 0 && lostCount == 0
      ensures latencyTradeoff == 0
      ensures delayStep == concealmentSize == stepSize && pointerTimestamp == nextStop == buffered == 0
      ensures subwindowSize == 333 && windowSize == 1000 && windows.View() == NoTimings()
      ensures autoTradeoff == INITIAL_TRADEOFF && packets == NoPackets()
      ensures accepted == returned == discarded == multiset{}
    {
      hide Windows.Valid, Windows.View, Stored;
      packets := seq(MAX_BUFFER_SIZE, _ => None);
      arrival := seq(MAX_BUFFER_SIZE, _ => 0);
      var w := new Windows();
      windows := w;
      delayStep, concealmentSize, bufferMargin := stepSize, stepSize, 0;
      interpRequested, autoAdjust, lastReturned := 0, true, 0;
      latencyTradeoff := 0;
      maxLateRate := MAX_LATE_RATE;
      windowSize := 100 * TOP_DELAY / MAX_LATE_RATE;
      subwindowSize := 100 * TOP_DELAY / MAX_LATE_RATE / MAX_BUFFERS;
      pointerTimestamp, nextStop, buffered := 0, 0, 0;
      resetState, lostCount, autoTradeoff := true, 0, INITIAL_TRADEOFF;
      accepted, returned, discarded := multiset{}, multiset{}, multiset{};
      new;
      EmptyStored(packets);
    }

    static lemma {:induction false} EmptyStored(s: Slots)
      ensures (forall i :: 0 <= i < |s| ==> s[i].None?) ==>
        Stored(s) == multiset{} && (|s| == MAX_BUFFER_SIZE ==> s == NoPackets())
    {
      if s != [] {
        EmptyStored(s[..|s| - 1]);
      }
    }

    /** A slot gives up its packet, which is thrown away. */
    method Discard(i: int)
      requires Shape() && Conserved() && 0 <= i < MAX_BUFFER_SIZE && packets[i].Some?
      modifies this`packets, this`discarded
      ensures Shape() && Conserved() && packets == old(packets)[i := None]
      ensures discarded == old(discarded) + multiset{old(packets[i]).value}
    {
      hide Stored;
      RemoveStored(packets, i);
      ghost var p := packets[i].value;
      Leaves(Stored(packets), Stored(packets[i := None]), returned, discarded, p);
      discarded := discarded + multiset{p};
      packets := packets[i := None];
    }

    /** What leaves the store must go somewhere. */
    static lemma Leaves(before: multiset<Packet>, after: multiset<Packet>, a: multiset<Packet>, b: multiset<Packet>,
                        p: Packet)
      requires before == after + multiset{p}
      ensures before + a + b == after + a + (b + multiset{p})
      ensures before + a + b == after + (a + multiset{p}) + b
    {
      assert before + a + b == after + a + b + multiset{p};
    }

    method DiscardAll()
      requires Shape() && Conserved()
      modifies this`packets, this`discarded
      ensures Shape() && Conserved() && packets == NoPackets() && Stored(packets) == multiset{}
    {
      hide Stored, Conserved;
      for i := 0 to MAX_BUFFER_SIZE
        invariant Shape() && Conserved() && forall k :: 0 <= k < i ==> packets[k].None?
      {
        if packets[i].Some? {
          Discard(i);
        }
      }
      EmptyStored(packets);
    }

    /** jitter_buffer_reset; a pending interpolation request stays. */
    method Reset()
      requires Valid()
      modifies this`packets, this`discarded, this`pointerTimestamp, this`nextStop, this`buffered, this`resetState
      modifies this`lostCount, this`autoTradeoff, windows, windows.Repr()
      ensures Valid() && resetState && pointerTimestamp == nextStop == buffered == 0 && lostCount == 0
      ensures autoTradeoff == INITIAL_TRADEOFF && windows.View() == NoTimings()
      ensures packets == NoPackets() && Stored(packets) == multiset{}
    {
      hide Windows.Valid, Windows.View, Stored, NoPackets;
      DiscardAll();
      Unsync();
      windows.Reset();
    }

    method Unsync()
      modifies this`pointerTimestamp, this`nextStop, this`buffered, this`resetState, this`lostCount, this`autoTradeoff
      ensures resetState && pointerTimestamp == nextStop == buffered == 0 && lostCount == 0
      ensures autoTradeoff == INITIAL_TRADEOFF
    {
      pointerTimestamp := 0;
      nextStop := 0;
      resetState := true;
      lostCount := 0;
      buffered := 0;
      autoTradeoff := INITIAL_TRADEOFF;
    }

    // ----- put -----

    /** Remove packets that were not played and can no longer be. */
    method Cleanup()
      requires Shape() && Conserved()
      modifies this`packets, this`discarded
      ensures Shape() && Conserved() && packets == Cleaned(old(packets), pointerTimestamp)
    {
      hide Stored, Conserved, LE32;
      ghost var s := packets;
      for i := 0 to MAX_BUFFER_SIZE
        invariant Shape() && Conserved()
        invariant forall k :: 0 <= k < MAX_BUFFER_SIZE ==>
          packets[k] == if k < i then Cleaned(s, pointerTimestamp)[k] else s[k]
      {
        if packets[i].Some? && LE32(packets[i].value.End(), pointerTimestamp) {
          Discard(i);
        }
      }
    }

    /** The first empty slot; in a full buffer the earliest packet makes room. */
    method MakeRoom() returns (i: int)
      requires Shape() && Conserved()
      modifies this`packets, this`discarded
      ensures Shape() && Conserved() && 0 <= i < MAX_BUFFER_SIZE && packets[i].None?
      ensures RoomAt(old(packets), i) && packets == old(packets)[i := None]
      ensures |Stored(old(packets))| < MAX_BUFFER_SIZE ==> packets == old(packets) && discarded == old(discarded)
    {
      hide Stored, Conserved, LT32;
      i := 0;
      while i < MAX_BUFFER_SIZE && packets[i].Some?
        invariant 0 <= i <= MAX_BUFFER_SIZE
        invariant forall k :: 0 <= k < i ==> packets[k].Some?
      {
        i := i + 1;
      }
      if i == MAX_BUFFER_SIZE {
        FullCount(packets);
        var earliest := packets[0].value.timestamp;
        i := 0;
        for j := 1 to MAX_BUFFER_SIZE
          invariant i == EarliestIndex(packets, j) && earliest == packets[i].value.timestamp
        {
          if LT32(packets[j].value.timestamp, earliest) {
            earliest := packets[j].value.timestamp;
            i := j;
          }
        }
        Discard(i);
      } else {
        assert packets == packets[i := None];
      }
    }

    /** The statistics after one more arrival. */
    ghost function LateView(v: seq<multiset<int>>, timestamp: int, due: int): seq<multiset<int>>
      requires |v| == MAX_BUFFERS
      reads this`bufferMargin, this`subwindowSize
    {
      Recorded(v, Windows.Clamp(Wrap32(timestamp - due) - bufferMargin), subwindowSize)
    }

    /** A packet too late for its time still teaches something. */
    method NoteArrival(timestamp: int) returns (late: bool)
      requires Valid()
      modifies windows, windows.Repr()
      ensures Valid() && late == (!resetState && LT32(timestamp, nextStop))
      ensures windows.View() == if late then LateView(old(windows.View()), timestamp, nextStop) else old(windows.View())
    {
      hide Windows.Valid, Windows.View, Stored, LT32, Wrap32, Conserved;
      if !resetState && LT32(timestamp, nextStop) {
        windows.UpdateTimings(Wrap32(timestamp - nextStop) - bufferMargin, subwindowSize);
        late := true;
      } else {
        late := false;
      }
    }

    /** Copy the packet in. */
    method Store(i: int, p: Packet, late: bool)
      requires Shape() && Conserved() && 0 <= i < MAX_BUFFER_SIZE && packets[i].None?
      modifies this`packets, this`arrival, this`accepted
      ensures Shape() && Conserved() && packets == old(packets)[i := Some(p)] && accepted == old(accepted) + multiset{p}
      ensures arrival == old(arrival)[i := if resetState || late then 0 else nextStop]
    {
      hide Stored;
      AddStored(packets, i, p);
      Enters(Stored(packets), Stored(packets[i := Some(p)]), returned, discarded, p);
      accepted := accepted + multiset{p};
      packets := packets[i := Some(p)];
      arrival := arrival[i := if resetState || late then 0 else nextStop];
    }

    static lemma Enters(before: multiset<Packet>, after: multiset<Packet>, a: multiset<Packet>, b: multiset<Packet>,
                        p: Packet)
      requires after == before + multiset{p}
      ensures before + a + b + multiset{p} == after + a + b
    {}

    /** The second half of a put: the packet goes in unless it is hopelessly late. */
    method Insert(p: Packet, late: bool) returns (ghost at: int)
      requires Core()
      modifies this`packets, this`arrival, this`accepted, this`discarded
      ensures Core() && PutAt(old(packets), p, at, resetState, pointerTimestamp, delayStep, packets)
      ensures accepted == (if at == -1 then old(accepted) else old(accepted) + multiset{p})
      ensures arrival == if at == -1 then old(arrival)
        else old(arrival)[at := if resetState || late then 0 else nextStop]
    {
      hide Stored, GE32, RoomAt, Conserved;
      at := -1;
      if resetState || GE32(p.End() + delayStep, pointerTimestamp) {
        var i := MakeRoom();
        Store(i, p, late);
        at := i;
      }
    }

    ghost function ViewAfterPut(v: seq<multiset<int>>, timestamp: int, late: bool, losses: int,
                                due: int): seq<multiset<int>>
      requires |v| == MAX_BUFFERS
      reads this`bufferMargin, this`subwindowSize
    {
      if losses > LOST_LIMIT then NoTimings() else if late then LateView(v, timestamp, due) else v
    }

    /** The settings are positive. */
    lemma Settings()
      requires Valid()
      ensures delayStep > 0 && concealmentSize > 0 && |packets| == |arrival| == MAX_BUFFER_SIZE && windows.Valid()
    {}

    /** The first half of a put: clean up, note a late arrival, and start over after too many losses. */
    method Prepare(timestamp: int) returns (late: bool)
      requires Valid()
      modifies this`packets, this`discarded, this`pointerTimestamp, this`nextStop, this`buffered
      modifies this`resetState, this`lostCount, this`autoTradeoff, windows, windows.Repr()
      ensures Valid() && late == (!old(resetState) && LT32(timestamp, old(nextStop)))
      ensures packets == BeforeStore(old(packets), old(resetState), old(pointerTimestamp), old(lostCount))
      ensures resetState == (old(resetState) || old(lostCount) > LOST_LIMIT)
      ensures lostCount == if old(lostCount) <= LOST_LIMIT then old(lostCount) else 0
      ensures old(lostCount) <= LOST_LIMIT ==> pointerTimestamp == old(pointerTimestamp) && nextStop == old(nextStop)
      ensures old(lostCount) <= LOST_LIMIT ==> buffered == old(buffered) && autoTradeoff == old(autoTradeoff)
      ensures windows.View() == ViewAfterPut(old(windows.View()), timestamp, late, old(lostCount), old(nextStop))
    {
      hide Windows.Valid, Windows.View, Stored, LT32, LE32, Cleaned, NoPackets, Conserved;
      if !resetState {
        Cleanup();
      }
      late := NoteArrival(timestamp);
      if lostCount > LOST_LIMIT {
        Reset();
      }
    }

    /** The two halves of a put. */
    method Place(p: Packet) returns (ghost at: int, ghost late: bool)
      requires Valid()
      modifies this`packets, this`arrival, this`accepted, this`discarded, this`pointerTimestamp, this`nextStop
      modifies this`buffered
      modifies this`resetState, this`lostCount, this`autoTradeoff, windows, windows.Repr()
      ensures Valid() && late == (!old(resetState) && LT32(p.timestamp, old(nextStop)))
      ensures PutAt(BeforeStore(old(packets), old(resetState), old(pointerTimestamp), old(lostCount)),
                    p, at, resetState, pointerTimestamp, delayStep, packets)
      ensures accepted == (if at == -1 then old(accepted) else old(accepted) + multiset{p})
      ensures arrival == if at == -1 then old(arrival)
        else old(arrival)[at := if resetState || late then 0 else nextStop]
      ensures resetState == (old(resetState) || old(lostCount) > LOST_LIMIT)
      ensures lostCount == if old(lostCount) <= LOST_LIMIT then old(lostCount) else 0
      ensures old(lostCount) <= LOST_LIMIT ==> pointerTimestamp == old(pointerTimestamp) && nextStop == old(nextStop)
      ensures old(lostCount) <= LOST_LIMIT ==> buffered == old(buffered) && autoTradeoff == old(autoTradeoff)
      ensures windows.View() == ViewAfterPut(old(windows.View()), p.timestamp, late, old(lostCount), old(nextStop))
    {
      hide Windows.Valid, Windows.View, Stored, LT32, LE32, PutAt, Conserved, BeforeStore;
      var wasLate := Prepare(p.timestamp);
      late := wasLate;
      at := Insert(p, wasLate);
    }

    /** jitter_buffer_put.  at is the slot the packet went to, -1 if it came hopelessly late. */
    method Put(p: Packet) returns (ghost at: int, ghost late: bool)
      requires Valid()
      modifies this`packets, this`arrival, this`accepted, this`discarded, this`pointerTimestamp, this`nextStop
      modifies this`buffered
      modifies this`resetState, this`lostCount, this`autoTradeoff, windows, windows.Repr()
      ensures Valid() && late == (!old(resetState) && LT32(p.timestamp, old(nextStop)))
      ensures old(lostCount) <= LOST_LIMIT ==>
        PutIs(old(packets), p, at, old(resetState), pointerTimestamp, delayStep, packets)
      ensures old(lostCount) > LOST_LIMIT ==> at == 0 && packets == NoPackets()[0 := Some(p)]
      ensures old(lostCount) <= LOST_LIMIT && !old(resetState) ==> forall i :: 0 <= i < |packets| && i != at ==>
        packets[i] == if old(packets)[i].Some? && GT32(old(packets)[i].value.End(), pointerTimestamp)
                      then old(packets)[i] else None
      ensures Stored(packets) + discarded
        == old(Stored(packets)) + old(discarded) + if at == -1 then multiset{} else multiset{p}
      ensures accepted == (if at == -1 then old(accepted) else old(accepted) + multiset{p})
      ensures arrival == if at == -1 then old(arrival)
        else old(arrival)[at := if resetState || late then 0 else nextStop]
      ensures resetState == (old(resetState) || old(lostCount) > LOST_LIMIT)
      ensures lostCount == if old(lostCount) <= LOST_LIMIT then old(lostCount) else 0
      ensures old(lostCount) <= LOST_LIMIT ==> pointerTimestamp == old(pointerTimestamp) && nextStop == old(nextStop)
      ensures old(lostCount) <= LOST_LIMIT ==> buffered == old(buffered) && autoTradeoff == old(autoTradeoff)
      ensures windows.View() == ViewAfterPut(old(windows.View()), p.timestamp, late, old(lostCount), old(nextStop))
    {
      hide Windows.Valid, Windows.View, Stored, LT32, LE32, GT32, PutAt, PutIs, Conserved, BeforeStore, ViewAfterPut;
      Accounts();
      at, late := Place(p);
      PutFound(old(packets), p, at, old(resetState), old(pointerTimestamp), old(lostCount), resetState,
               pointerTimestamp, delayStep, packets);
      Accounts();
      Fate(old(packets), old(accepted), old(discarded), p, at);
    }

    lemma Accounts()
      requires Valid()
      ensures accepted == Stored(packets) + returned + discarded
    {}

    lemma Fate(s: Slots, before: multiset<Packet>, gone: multiset<Packet>, p: Packet, at: int)
      requires accepted == Stored(packets) + returned + discarded && before == Stored(s) + returned + gone
      requires accepted == if at == -1 then before else before + multiset{p}
      ensures Stored(packets) + discarded == Stored(s) + gone + if at == -1 then multiset{} else multiset{p}
    {
      hide Stored;
      Balance(Stored(s), Stored(packets), returned, gone, discarded, if at == -1 then multiset{} else multiset{p});
    }

    static lemma PutFound(s: Slots, p: Packet, at: int, resetState: bool, pointer: int, losses: int, reset: bool,
                          pointer': int, step: int, after: Slots)
      requires PutAt(BeforeStore(s, resetState, pointer, losses), p, at, reset, pointer', step, after)
      requires reset == (resetState || losses > LOST_LIMIT) && (losses <= LOST_LIMIT ==> pointer' == pointer)
      ensures losses <= LOST_LIMIT ==> PutIs(s, p, at, resetState, pointer, step, after)
      ensures losses <= LOST_LIMIT && !resetState ==> forall i :: 0 <= i < |after| && i != at ==>
        after[i] == if s[i].Some? && GT32(s[i].value.End(), pointer) then s[i] else None
      ensures losses > LOST_LIMIT ==> at == 0 && after == NoPackets()[0 := Some(p)]
    {
      hide Wrap32, EarliestIndex, Cleaned;
      if losses <= LOST_LIMIT {
        PutMeans(s, p, at, resetState, pointer, step, after);
      } else {
        assert NoPackets()[0].None?;
      }
    }

    /** What is put, stored and thrown away balances. */
    static lemma Balance(before: multiset<Packet>, after: multiset<Packet>, a: multiset<Packet>, b: multiset<Packet>,
                         c: multiset<Packet>, p: multiset<Packet>)
      requires after + a + c == before + a + b + p
      ensures after + c == before + b + p
    {
      forall q: Packet
        ensures (after + c)[q] == (before + b + p)[q]
      {
        assert (after + a + c)[q] == after[q] + a[q] + c[q];
        assert (before + a + b + p)[q] == before[q] + a[q] + b[q] + p[q];
      }
    }

    // ----- get -----

    /** The first slot that fits in the given way, -1 for none. */
    method FindFit(k: Kind, span: int) returns (i: int)
      requires Shape()
      ensures i == -1 ==> NoneFits(k, packets, |packets|, pointerTimestamp, span)
      ensures i != -1 ==> FirstFit(k, packets, i, pointerTimestamp, span)
    {
      hide Fits;
      i := 0;
      while i < MAX_BUFFER_SIZE
        invariant 0 <= i <= MAX_BUFFER_SIZE && NoneFits(k, packets, i, pointerTimestamp, span)
      {
        if packets[i].Some? && Fits(k, packets[i].value, pointerTimestamp, span) {
          return;
        }
        i := i + 1;
      }
      i := -1;
    }

    /** The earliest packet starting in the span, the longest of those. */
    method FindStart(span: int) returns (best: int)
      requires Shape()
      ensures best == BestStart(packets, |packets|, pointerTimestamp, span)
    {
      hide StartsIn, Better;
      best := -1;
      for i := 0 to MAX_BUFFER_SIZE
        invariant best == BestStart(packets, i, pointerTimestamp, span)
      {
        if packets[i].Some? && StartsIn(packets[i].value, pointerTimestamp, span) {
          if best == -1 || Better(packets[i].value, packets[best].value) {
            best := i;
          }
        }
      }
    }

    /** The four searches, each tried only when those before found nothing. */
    method FindPacket(span: int) returns (i: int)
      requires Shape()
      ensures Chosen(packets, i, pointerTimestamp, span)
      ensures -1 <= i < |packets| && (i != -1 ==> packets[i].Some?)
    {
      hide Fits;
      i := FindFit(IsExact, span);
      if i == -1 {
        i := FindFit(IsCovering, span);
        if i == -1 {
          i := FindFit(IsReaching, span);
          if i == -1 {
            i := FindStart(span);
          }
        }
      }
    }

    /** Syncing on the first get: the oldest packet says where to start. */
    method Sync() returns (found: bool)
      requires Shape() && resetState
      modifies this`resetState, this`pointerTimestamp, this`nextStop
      ensures var o := OldestIndex(packets, |packets|);
        if o == -1 then !found && resetState && pointerTimestamp == old(pointerTimestamp) && nextStop == old(nextStop)
        else found && !resetState && pointerTimestamp == nextStop == packets[o].value.timestamp
    {
      hide LT32;
      var o := -1;
      for i := 0 to MAX_BUFFER_SIZE
        invariant o == OldestIndex(packets, i)
      {
        if packets[i].Some? && (o == -1 || LT32(packets[i].value.timestamp, packets[o].value.timestamp)) {
          o := i;
        }
      }
      found := o != -1;
      if found {
        resetState := false;
        pointerTimestamp := packets[o].value.timestamp;
        nextStop := packets[o].value.timestamp;
      }
    }

    ghost function ViewAfterPlay(v: seq<multiset<int>>, timestamp: int, arrived: int): seq<multiset<int>>
      requires |v| == MAX_BUFFERS
      reads this`bufferMargin, this`subwindowSize
    {
      if EQ32(arrived, 0) then v else LateView(v, timestamp, arrived)
    }

    /** What is recorded of a late arrival, and of a packet played: its timestamp less the time it was due at and the
        margin, so that late packets count below zero. */
    lemma RecordedTiming(v: seq<multiset<int>>, timestamp: int, due: int, timing: int)
      requires |v| == MAX_BUFFERS && |v[0]| < subwindowSize && Near(timestamp, due)
      requires timing == timestamp - due - bufferMargin && -32767 <= timing <= 32767
      ensures LateView(v, timestamp, due) == [v[0] + multiset{timing}, v[1], v[2]]
      ensures 0 < due < HALF_RANGE ==> ViewAfterPlay(v, timestamp, due) == [v[0] + multiset{timing}, v[1], v[2]]
      ensures ViewAfterPlay(v, timestamp, 0) == v
    {
      OrderAgrees(timestamp, due);
      OrderAgrees(0, 0);
      if 0 < due < HALF_RANGE {
        OrderAgrees(due, 0);
      }
      hide Wrap32;
    }

    /** The arrival of a packet that is played now; zero stands for one that came late or before the first get. */
    method NotePlayed(timestamp: int, arrived: int)
      requires Valid()
      modifies windows, windows.Repr()
      ensures Valid()
      ensures windows.View() == ViewAfterPlay(old(windows.View()), timestamp, arrived)
    {
      hide Windows.Valid, Windows.View, Stored, Wrap32, Conserved, Recorded;
      if !EQ32(arrived, 0) {
        windows.UpdateTimings(Wrap32(timestamp - arrived) - bufferMargin, subwindowSize);
      }
    }

    /** A slot gives up its packet to the application. */
    method Release(i: int)
      requires Shape() && Conserved() && 0 <= i < MAX_BUFFER_SIZE && packets[i].Some?
      modifies this`packets, this`returned
      ensures Shape() && Conserved() && packets == old(packets)[i := None]
      ensures returned == old(returned) + multiset{old(packets)[i].value}
    {
      hide Stored;
      RemoveStored(packets, i);
      ghost var p := packets[i].value;
      Leaves(Stored(packets), Stored(packets[i := None]), returned, discarded, p);
      returned := returned + multiset{p};
      packets := packets[i := None];
    }

    /** Hand over the packet in slot i and move past it. */
    method TakePacket(i: int, span: int, capacity: nat, wantOffset: bool) returns (r: Got)
      requires Core() && 0 <= i < |packets| && packets[i].Some?
      modifies this`packets, this`returned, this`lastReturned, this`pointerTimestamp, this`buffered, this`lostCount
      ensures Core() && packets == old(packets)[i := None]
      ensures returned == old(returned) + multiset{old(packets)[i].value}
      ensures var p, offset := old(packets)[i].value, Wrap32(old(packets)[i].value.timestamp - old(pointerTimestamp));
        && r == Handed(p, capacity, offset) && lastReturned == p.timestamp && pointerTimestamp == p.End()
        && lostCount == 0
        && buffered == p.span - span + (if wantOffset then offset else 0)
    {
      hide Conserved, Wrap32;
      var p := packets[i].value;
      Release(i);
      lostCount := 0;
      var offset := Wrap32(p.timestamp - pointerTimestamp);
      lastReturned := p.timestamp;
      pointerTimestamp := p.End();
      buffered := p.span - span;
      if wantOffset {
        buffered := buffered + offset;
      }
      r := Handed(p, capacity, offset);
    }

    ghost function Stats(): Statistics
      requires windows.Valid()
      reads this`delayStep, this`latencyTradeoff, this`autoTradeoff, this`windowSize, windows, windows.Repr()
    {
      Statistics(AllOf(windows.View()), delayStep, latencyTradeoff, autoTradeoff, windowSize)
    }

    /** compute_opt_delay on the buffer's own settings; the automatic tradeoff is updated on the way. */
    method EstimateDelay() returns (opt: int)
      requires Valid()
      modifies this`autoTradeoff
      ensures Valid() && IsEstimate(old(Stats()), Estimate(opt, autoTradeoff))
    {
      hide Windows.Valid, Windows.View, Conserved, IsEstimate;
      var e := windows.ComputeOptDelay(delayStep, latencyTradeoff, autoTradeoff, windowSize);
      autoTradeoff := e.autoTradeoff;
      opt := e.opt;
    }

    /** The timings follow an adjustment of the delay. */
    method Compensate(opt: int)
      requires Valid()
      modifies windows.Repr()
      ensures Valid()
      ensures windows.Lists() == if opt == 0 then old(windows.Lists())
        else AllShifted(old(windows.Lists()), Wrap16(-opt))
      ensures opt == 0 ==> windows.View() == old(windows.View())
    {
      hide Windows.Valid, Windows.View, Windows.Lists, Stored, AllShifted, Wrap16;
      if opt != 0 {
        windows.ShiftTimings(Wrap16(-opt));
      }
    }

    /** Loss: interpolate, or insert to build up the buffer when packets come too late. */
    method ReportLoss(span: int) returns (r: Got, ghost opt: int)
      requires Valid()
      modifies this`autoTradeoff, this`lostCount, this`buffered, this`pointerTimestamp, windows.Repr()
      ensures Valid() && lostCount == old(lostCount) + 1
      ensures LostAs(opt, r, old(Stats()), old(windows.Lists()), old(windows.View()), old(pointerTimestamp), span)
    {
      hide Windows.Valid, Windows.View, Windows.Lists, Conserved, RoundDown, AllShifted, Wrap16, IsEstimate;
      var before := pointerTimestamp;
      var delay := EstimateDelay();
      opt := delay;
      Compensate(if delay < 0 then delay else 0);
      CountLoss(delay, span);
      r := LossReport(delay, before, span, concealmentSize);
    }

    /** What a loss does: the estimate opt decides between inserting and concealing; the pointer moves only when the
        loss is concealed, and only an insertion shifts the timings. */
    ghost predicate LostAs(opt: int, r: Got, stats: Statistics, lists: seq<seq<int>>, view: seq<multiset<int>>,
                           pointer: int, span: int)
      requires concealmentSize > 0 && stats.step > 0 && windows.Valid()
      reads this, windows, windows.Repr()
    {
      && IsEstimate(stats, Estimate(opt, autoTradeoff)) && r == LossReport(opt, pointer, span, concealmentSize)
      && pointerTimestamp == pointer + (if opt < 0 then 0 else r.span)
      && buffered == (if opt < 0 then -opt - span else 0)
      && windows.Lists() == (if opt < 0 then AllShifted(lists, Wrap16(-opt)) else lists)
      && (opt >= 0 ==> windows.View() == view)
    }

    /** One more loss in a row; the pointer moves only when the loss is concealed. */
    method CountLoss(opt: int, span: int)
      requires concealmentSize > 0
      modifies this`lostCount, this`buffered, this`pointerTimestamp
      ensures lostCount == old(lostCount) + 1
      ensures pointerTimestamp == old(pointerTimestamp) + (if opt < 0 then 0 else RoundDown(span, concealmentSize))
      ensures buffered == if opt < 0 then -opt - span else 0
    {
      lostCount := lostCount + 1;
      if opt < 0 {
        buffered := -opt - span;
      } else {
        pointerTimestamp := pointerTimestamp + RoundDown(span, concealmentSize);
        buffered := 0;
      }
    }

    /** A get that found an interpolation pending. */
    method Defer(span: int) returns (r: Got)
      modifies this`pointerTimestamp, this`interpRequested, this`buffered
      ensures r == Report(Insertion, old(pointerTimestamp), old(interpRequested))
      ensures pointerTimestamp == old(pointerTimestamp) + old(interpRequested) && interpRequested == 0
      ensures buffered == old(interpRequested) - span
    {
      r := Report(Insertion, pointerTimestamp, interpRequested);
      pointerTimestamp := pointerTimestamp + interpRequested;
      buffered := interpRequested - span;
      interpRequested := 0;
    }

    /** The packet found is noted and handed over. */
    method Play(i: int, span: int, capacity: nat, wantOffset: bool) returns (r: Got)
      requires Valid() && !resetState && 0 <= i < |packets| && packets[i].Some?
      modifies this`packets, this`returned, this`lastReturned, this`pointerTimestamp, this`buffered, this`lostCount
      modifies windows, windows.Repr()
      ensures Valid() && packets == old(packets)[i := None] && |old(arrival)| == |old(packets)|
      ensures returned == old(returned) + multiset{old(packets)[i].value}
      ensures PlayedAs(old(packets)[i].value, r, old(pointerTimestamp), span, capacity, wantOffset)
      ensures windows.View() == ViewAfterPlay(old(windows.View()), old(packets)[i].value.timestamp, old(arrival)[i])
    {
      hide Windows.Valid, Windows.View, Stored, Conserved, Handed;
      NotePlayed(packets[i].value.timestamp, arrival[i]);
      r := TakePacket(i, span, capacity, wantOffset);
    }

    /** A get once it is synced and nothing is pending. */
    method Serve(span: int, capacity: nat, wantOffset: bool) returns (r: Got, ghost how: Outcome)
      requires Valid() && !resetState && interpRequested == 0
      modifies this`packets, this`returned, this`lastReturned, this`pointerTimestamp, this`buffered, this`lostCount
      modifies this`autoTradeoff, windows, windows.Repr()
      ensures Valid() && ServedAs(how, old(packets), packets, old(pointerTimestamp), span)
      ensures how.Played? ==> PlayedAs(old(packets)[how.at].value, r, old(pointerTimestamp), span, capacity, wantOffset)
      ensures how.Played? ==> returned == old(returned) + multiset{old(packets)[how.at].value}
      ensures how.Played? ==>
        windows.View() == ViewAfterPlay(old(windows.View()), old(packets)[how.at].value.timestamp, old(arrival)[how.at])
      ensures how.Played? ==> autoTradeoff == old(autoTradeoff)
      ensures how.Lost? ==>
        returned == old(returned) && lostCount == old(lostCount) + 1 && lastReturned == old(lastReturned)
      ensures how.Lost? ==>
        LostAs(how.opt, r, old(Stats()), old(windows.Lists()), old(windows.View()), old(pointerTimestamp), span)
    {
      hide Windows.Valid, Windows.View, Stored, Chosen, Conserved, LossReport, Handed;
      var i := FindPacket(span);
      if i != -1 {
        r := Play(i, span, capacity, wantOffset);
        how := Played(i);
      } else {
        ghost var opt;
        r, opt := ReportLoss(span);
        how := Lost(opt);
      }
    }

    /** What the fields say after a packet was played. */
    ghost predicate PlayedAs(p: Packet, r: Got, pointer: int, span: int, capacity: nat, wantOffset: bool)
      reads this
    {
      var offset := Wrap32(p.timestamp - pointer);
      && r == Handed(p, capacity, offset) && lastReturned == p.timestamp && pointerTimestamp == p.End()
      && lostCount == 0
      && buffered == p.span - span + (if wantOffset then offset else 0)
    }

    /** A get once it is synced. */
    method Answer(span: int, capacity: nat, wantOffset: bool) returns (r: Got, ghost how: Outcome)
      requires Valid() && !resetState
      modifies this`packets, this`returned, this`lastReturned, this`pointerTimestamp, this`buffered, this`lostCount
      modifies this`interpRequested, this`autoTradeoff, windows, windows.Repr()
      ensures Valid() && !how.Unsynced?
      ensures GotAs(how, r, old(packets), packets, false, old(interpRequested), old(pointerTimestamp), span,
          concealmentSize)
      ensures interpRequested == if how.Deferred? then 0 else old(interpRequested)
      ensures how.Deferred? ==> pointerTimestamp == old(Progress()) && buffered == old(interpRequested) - span
      ensures how.Deferred? ==> lastReturned == old(pointerTimestamp) && lostCount == old(lostCount)
      ensures how.Played? ==> PlayedAs(old(packets)[how.at].value, r, old(pointerTimestamp), span, capacity, wantOffset)
      ensures how.Played? ==> returned == old(returned) + multiset{old(packets)[how.at].value}
      ensures how.Played? ==>
        windows.View() == ViewAfterPlay(old(windows.View()), old(packets)[how.at].value.timestamp, old(arrival)[how.at])
      ensures how.Lost? ==> lostCount == old(lostCount) + 1 && lastReturned == old(pointerTimestamp)
      ensures how.Lost? ==>
        LostAs(how.opt, r, old(Stats()), old(windows.Lists()), old(windows.View()), old(pointerTimestamp), span)
      ensures !how.Lost? ==> autoTradeoff == old(autoTradeoff)
      ensures !how.Played? ==> returned == old(returned)
      ensures !how.Played? && !how.Lost? ==>
        windows.View() == old(windows.View()) && windows.Lists() == old(windows.Lists())
    {
      hide Windows.Valid, Windows.View, Conserved, Chosen, LossReport, ViewAfterPlay;
      lastReturned := pointerTimestamp;
      if interpRequested != 0 {
        r := Defer(span);
        how := Deferred;
      } else {
        r, how := Serve(span, capacity, wantOffset);
      }
    }

    /** What the application reads after a packet was played. */
    lemma PlayedReads(p: Packet, r: Got, pointer: int, span: int, capacity: nat, wantOffset: bool)
      requires PlayedAs(p, r, pointer, span, capacity, wantOffset)
      ensures r.status == Ok && r.timestamp == p.timestamp && r.span == p.span && r.sequence == p.sequence
      ensures r.userData == p.userData && |r.data| == Min(|p.data|, capacity) && r.data == p.data[..|r.data|]
      ensures r.offset == Wrap32(p.timestamp - pointer)
      ensures pointerTimestamp == p.timestamp + p.span && lastReturned == p.timestamp && lostCount == 0
    {
      hide Wrap32;
    }

    /** And after a loss. */
    lemma LostReads(opt: int, r: Got, stats: Statistics, lists: seq<seq<int>>, view: seq<multiset<int>>, pointer: int,
                    span: int)
      requires concealmentSize > 0 && stats.step > 0 && windows.Valid()
      requires LostAs(opt, r, stats, lists, view, pointer, span)
      ensures r.data == [] && r.timestamp == pointer
      ensures if opt < 0 then r.status == Insertion && r.span == -opt && pointerTimestamp == pointer
        else r.status == Missing && r.span == RoundDown(span, concealmentSize) && pointerTimestamp == pointer + r.span
    {
      hide IsEstimate, AllShifted, Wrap16, RoundDown, Windows.View, Windows.Lists, Windows.Valid;
    }

    /** jitter_buffer_get.  pointer is where the search starts once synced. */
    method Get(span: int, capacity: nat, wantOffset: bool) returns (r: Got, ghost how: Outcome, ghost pointer: int)
      requires Valid()
      modifies this`packets, this`returned, this`lastReturned, this`pointerTimestamp, this`nextStop, this`buffered
      modifies this`lostCount
      modifies this`resetState, this`interpRequested, this`autoTradeoff, windows, windows.Repr()
      ensures Valid()
      ensures GotAs(how, r, old(packets), packets, old(resetState), old(interpRequested), pointer, span,
          concealmentSize)
      ensures resetState == how.Unsynced? && (!old(resetState) ==> pointer == old(pointerTimestamp))
      ensures interpRequested == if how.Deferred? then 0 else old(interpRequested)
      ensures nextStop == if old(resetState) && !how.Unsynced? then pointer else old(nextStop)
      ensures how.Unsynced? ==> pointerTimestamp == old(pointerTimestamp) && lostCount == old(lostCount)
      ensures how.Deferred? ==>
        pointerTimestamp == pointer + old(interpRequested) && buffered == old(interpRequested) - span
      ensures how.Deferred? ==> lastReturned == pointer && lostCount == old(lostCount)
      ensures how.Played? ==> PlayedAs(old(packets)[how.at].value, r, pointer, span, capacity, wantOffset)
      ensures how.Played? ==>
        var p := old(packets)[how.at].value;
        && r.status == Ok && r.timestamp == p.timestamp && r.span == p.span && r.sequence == p.sequence
        && r.userData == p.userData && |r.data| == Min(|p.data|, capacity) && r.data == p.data[..|r.data|]
        && r.offset == Wrap32(p.timestamp - pointer)
        && pointerTimestamp == p.timestamp + p.span && lastReturned == p.timestamp && lostCount == 0
      ensures how.Lost? ==> r.data == [] && r.timestamp == pointer
      ensures how.Lost? && how.opt < 0 ==>
        r.status == Insertion && r.span == -how.opt && pointerTimestamp == pointer
      ensures how.Lost? && how.opt >= 0 ==>
        r.status == Missing && r.span == RoundDown(span, concealmentSize) && pointerTimestamp == pointer + r.span
      ensures how.Deferred? ==>
        r.status == Insertion && r.data == [] && r.timestamp == pointer && r.span == old(interpRequested)
      ensures how.Unsynced? ==> r.status == Missing && r.timestamp == 0 && r.span == old(interpRequested)
      ensures how.Played? ==> returned == old(returned) + multiset{old(packets)[how.at].value}
      ensures how.Played? ==>
        windows.View() == ViewAfterPlay(old(windows.View()), old(packets)[how.at].value.timestamp, old(arrival)[how.at])
      ensures how.Lost? ==> lostCount == old(lostCount) + 1 && lastReturned == pointer
      ensures how.Lost? ==> LostAs(how.opt, r, old(Stats()), old(windows.Lists()), old(windows.View()), pointer, span)
      ensures !how.Lost? ==> autoTradeoff == old(autoTradeoff)
      ensures !how.Played? ==> returned == old(returned)
      ensures !how.Played? && !how.Lost? ==>
        windows.View() == old(windows.View()) && windows.Lists() == old(windows.Lists())
    {
      hide Windows.Valid, Windows.View, Windows.Lists, Conserved, LossReport, PlayedAs, LostAs, ViewAfterPlay, Chosen;
      hide Wrap32, RoundDown, LT32, EQ32, Handed;
      if resetState {
        OldestMissing(packets, |packets|);
        var found := Sync();
        if !found {
          return Report(Missing, 0, interpRequested), Unsynced, pointerTimestamp;
        }
      }
      pointer := pointerTimestamp;
      r, how := Answer(span, capacity, wantOffset);
      if how.Played? {
        PlayedReads(old(packets)[how.at].value, r, pointer, span, capacity, wantOffset);
      } else if how.Lost? {
        LostReads(how.opt, r, old(Stats()), old(windows.Lists()), old(windows.View()), pointer, span);
      }
    }

    /** jitter_buffer_get_another: a further packet with the timestamp last returned. */
    method GetAnother() returns (r: Got, ghost at: int)
      requires Valid()
      modifies this`packets, this`returned
      ensures Valid() && AnotherAt(old(packets), at, lastReturned)
      ensures at == -1 ==>
        r.status == Missing && r.data == [] && r.span == 0 && packets == old(packets) && returned == old(returned)
      ensures at != -1 ==> packets == old(packets)[at := None]
      ensures at != -1 ==>
        var p := old(packets)[at].value;
        && r.status == Ok && r.data == p.data && r.timestamp == p.timestamp && r.span == p.span
        && r.sequence == p.sequence && r.userData == p.userData
      ensures at != -1 ==> returned == old(returned) + multiset{old(packets)[at].value}
    {
      hide Windows.Valid, Windows.View, Conserved, EQ32;
      var i := 0;
      while i < MAX_BUFFER_SIZE && !(packets[i].Some? && EQ32(packets[i].value.timestamp, lastReturned))
        invariant 0 <= i <= MAX_BUFFER_SIZE && NoneAt(packets, i, lastReturned)
      {
        i := i + 1;
      }
      if i == MAX_BUFFER_SIZE {
        return Report(Missing, lastReturned, 0), -1;
      }
      at := i;
      var p := packets[i].value;
      Release(i);
      r := Whole(p);
    }

    // ----- the clock -----

    method Move(opt: int)
      modifies this`pointerTimestamp, this`interpRequested
      ensures pointerTimestamp == old(pointerTimestamp) + opt
      ensures interpRequested == if opt < 0 then -opt else old(interpRequested)
    {
      pointerTimestamp := pointerTimestamp + opt;
      if opt < 0 {
        interpRequested := -opt;
      }
    }

    /** An adjustment by the estimate opt: moving back is paid for by an interpolation. */
    ghost predicate AdjustedAs(opt: int, stats: Statistics, lists: seq<seq<int>>, view: seq<multiset<int>>,
                               pointer: int, interp: int)
      requires stats.step > 0 && windows.Valid()
      reads this`autoTradeoff, this`pointerTimestamp, this`interpRequested, windows, windows.Repr()
    {
      && IsEstimate(stats, Estimate(opt, autoTradeoff)) && pointerTimestamp == pointer + opt
      && interpRequested == (if opt < 0 then -opt else interp)
      && windows.Lists() == (if opt == 0 then lists else AllShifted(lists, Wrap16(-opt)))
      && (opt == 0 ==> windows.View() == view)
    }

    /** _jitter_buffer_update_delay */
    method AdjustDelay() returns (opt: int)
      requires Valid()
      modifies this`autoTradeoff, this`pointerTimestamp, this`interpRequested, windows.Repr()
      ensures Valid()
      ensures AdjustedAs(opt, old(Stats()), old(windows.Lists()), old(windows.View()), old(pointerTimestamp),
          old(interpRequested))
    {
      hide Windows.Valid, Windows.View, Windows.Lists, Conserved, IsEstimate, Wrap16, AllShifted;
      opt := EstimateDelay();
      Move(opt);
      Compensate(opt);
    }

    /** jitter_buffer_update_delay: an application that calls this turns the automatic adjustment off. */
    method UpdateDelay() returns (opt: int)
      requires Valid()
      modifies this`autoAdjust, this`autoTradeoff, this`pointerTimestamp, this`interpRequested, windows.Repr()
      ensures Valid() && !autoAdjust
      ensures AdjustedAs(opt, old(Stats()), old(windows.Lists()), old(windows.View()), old(pointerTimestamp),
          old(interpRequested))
    {
      hide Windows.Valid, Windows.View, Windows.Lists, Conserved, AdjustedAs;
      autoAdjust := false;
      opt := AdjustDelay();
    }

    /** The delay is adjusted unless the application took that over. */
    method AutoAdjust() returns (ghost opt: int)
      requires Valid()
      modifies this`autoTradeoff, this`pointerTimestamp, this`interpRequested, windows.Repr()
      ensures Valid() && (!autoAdjust ==> opt == 0 && unchanged(this, windows, windows.Repr()))
      ensures Progress() == old(Progress()) + Max0(opt) - (if opt < 0 then old(interpRequested) else 0)
      ensures autoAdjust ==>
        AdjustedAs(opt, old(Stats()), old(windows.Lists()), old(windows.View()), old(pointerTimestamp),
            old(interpRequested))
    {
      hide Windows.Valid, Windows.View, Windows.Lists, Conserved, IsEstimate, AllShifted, Wrap16;
      opt := 0;
      if autoAdjust {
        var adjustment := AdjustDelay();
        opt := adjustment;
      }
    }

    /** jitter_buffer_tick; opt is the adjustment made, zero without automatic adjustment. */
    method Tick() returns (ghost opt: int)
      requires Valid()
      modifies this`autoTradeoff, this`pointerTimestamp, this`interpRequested, this`nextStop, this`buffered
      modifies windows.Repr()
      ensures Valid() && buffered == 0 && nextStop == pointerTimestamp - Max0(old(buffered))
      ensures Progress() == old(Progress()) + Max0(opt) - (if opt < 0 then old(interpRequested) else 0)
      ensures Progress() < old(Progress()) <==> opt < 0 && old(interpRequested) > 0
      ensures !autoAdjust ==>
        opt == 0 && pointerTimestamp == old(pointerTimestamp) && interpRequested == old(interpRequested)
      ensures !autoAdjust ==> windows.View() == old(windows.View()) && windows.Lists() == old(windows.Lists())
      ensures autoAdjust ==>
        AdjustedAs(opt, old(Stats()), old(windows.Lists()), old(windows.View()), old(pointerTimestamp),
            old(interpRequested))
    {
      hide Windows.Valid, Windows.View, Windows.Lists, Conserved, AdjustedAs;
      opt := AutoAdjust();
      ExpectNext();
    }

    /** When the next get is due. */
    method ExpectNext()
      modifies this`nextStop, this`buffered
      ensures buffered == 0 && nextStop == pointerTimestamp - Max0(old(buffered))
    {
      if buffered >= 0 {
        nextStop := pointerTimestamp - buffered;
      } else {
        nextStop := pointerTimestamp;
      }
      buffered := 0;
    }

    /** jitter_buffer_remaining_span: the application says itself how much it still has to play. */
    method RemainingSpan(rem: int) returns (ghost opt: int)
      requires Valid()
      modifies this`autoTradeoff, this`pointerTimestamp, this`interpRequested, this`nextStop, windows.Repr()
      ensures Valid() && nextStop == pointerTimestamp - rem
      ensures !autoAdjust ==>
        opt == 0 && pointerTimestamp == old(pointerTimestamp) && interpRequested == old(interpRequested)
      ensures autoAdjust ==>
        AdjustedAs(opt, old(Stats()), old(windows.Lists()), old(windows.View()), old(pointerTimestamp),
            old(interpRequested))
    {
      hide Windows.Valid, Windows.View, Windows.Lists, Conserved, AdjustedAs;
      opt := AutoAdjust();
      nextStop := pointerTimestamp - rem;
    }
  }

  function Max0(x: int): int { if x > 0 then x else 0 }

  /** A packet handed over with all its data. */
  function Whole(p: Packet): Got { Got(Ok, p.data, p.timestamp, p.span, p.sequence, p.userData, 0) }

  predicate NoneAt(s: Slots, n: nat, timestamp: int)
    requires n <= |s|
  {
    forall i :: 0 <= i < n && s[i].Some? ==> !EQ32(s[i].value.timestamp, timestamp)
  }

  /** The first slot with a packet of that timestamp, -1 if there is none. */
  predicate AnotherAt(s: Slots, at: int, timestamp: int) {
    if at == -1 then NoneAt(s, |s|, timestamp)
    else 0 <= at < |s| && s[at].Some? && EQ32(s[at].value.timestamp, timestamp) && NoneAt(s, at, timestamp)
  }

  /** How a get ended: nothing to sync to, a pending interpolation, a packet, or a loss. */
  datatype Outcome = Unsynced | Deferred | Played(at: int) | Lost(opt: int)

  /** The packet the four searches choose is taken out; a loss means they found none. */
  ghost predicate ServedAs(how: Outcome, before: Slots, after: Slots, pointer: int, span: int) {
    match how
    case Played(at) =>
      0 <= at < |before| && before[at].Some? && Chosen(before, at, pointer, span) && after == before[at := None]
    case Lost(opt) => Chosen(before, -1, pointer, span) && after == before
    case _ => false
  }

  /** What a get does: the first one syncs to the oldest packet, a pending interpolation comes before any search, and
      only then is a packet chosen. */
  ghost predicate GotAs(how: Outcome, r: Got, before: Slots, after: Slots, resetState: bool, interp: int, pointer: int,
                        span: int, concealment: int)
    requires concealment > 0
  {
    && (resetState ==> SyncedTo(before, how, pointer))
    && match how
       case Unsynced => resetState && after == before && r == Report(Missing, 0, interp)
       case Deferred => interp != 0 && after == before && r == Report(Insertion, pointer, interp)
       case Played(_) => interp == 0 && ServedAs(how, before, after, pointer, span) && r.status == Ok
       case Lost(opt) =>
         interp == 0 && ServedAs(how, before, after, pointer, span) && r == LossReport(opt, pointer, span, concealment)
  }

  /** The oldest packet, if any, is where playing starts. */
  ghost predicate SyncedTo(s: Slots, how: Outcome, pointer: int) {
    var o := OldestIndex(s, |s|);
    if o == -1 then how.Unsynced? else !how.Unsynced? && pointer == s[o].value.timestamp
  }
}
