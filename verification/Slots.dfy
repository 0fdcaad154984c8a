/** The packet slots of the jitter buffer, and which packet a get takes from them. */
module PacketSlots {
  import opened JitterTime
  import opened MachineWords
  import opened Wrappers

  const MAX_BUFFER_SIZE := 200

  /** A packet; a slot whose data pointer is NULL is None. */
  datatype Packet = Packet(data: seq<bv8>, timestamp: int, span: nat, sequence: int, userData: int) {
    function End(): int { timestamp + span }
  }

  type Slots = seq<Option<Packet>>

  /** The packets in the slots. */
  function Stored(s: Slots): (m: multiset<Packet>)
    ensures |m| <= |s|
  {
    if s == [] then multiset{} else Stored(s[..|s| - 1]) + One(s[|s| - 1])
  }

  function One(o: Option<Packet>): multiset<Packet> { if o.Some? then multiset{o.value} else multiset{} }

  lemma {:induction false} StoredUpdate(s: Slots, i: nat, o: Option<Packet>)
    requires i < |s|
    ensures Stored(s[i := o]) + One(s[i]) == Stored(s) + One(o)
  {
    hide One;
    var n, t := |s| - 1, s[i := o];
    if i == n {
      assert t[..n] == s[..n];
      Swap(Stored(s[..n]), One(o), One(s[n]));
    } else {
      assert t[..n] == s[..n][i := o];
      StoredUpdate(s[..n], i, o);
      Swap(Stored(t[..n]), One(s[n]), One(s[i]));
      Swap(Stored(s[..n]), One(o), One(s[n]));
    }
  }

  lemma Swap(a: multiset<Packet>, b: multiset<Packet>, c: multiset<Packet>)
    ensures a + b + c == a + c + b
  {}

  lemma RemoveStored(s: Slots, i: nat)
    requires i < |s| && s[i].Some?
    ensures Stored(s) == Stored(s[i := None]) + multiset{s[i].value}
  {
    StoredUpdate(s, i, None);
  }

  lemma AddStored(s: Slots, i: nat, p: Packet)
    requires i < |s| && s[i].None?
    ensures Stored(s[i := Some(p)]) == Stored(s) + multiset{p}
  {
    StoredUpdate(s, i, Some(p));
  }

  /** All slots taken. */
  lemma {:induction false} FullCount(s: Slots)
    requires forall i :: 0 <= i < |s| ==> s[i].Some?
    ensures |Stored(s)| == |s|
  {
    if s != [] {
      FullCount(s[..|s| - 1]);
    }
  }

  // ----- which packet -----

  predicate Exact(p: Packet, pointer: int, span: int) { EQ32(p.timestamp, pointer) && GE32(p.End(), pointer + span) }

  predicate Covers(p: Packet, pointer: int, span: int) { LE32(p.timestamp, pointer) && GE32(p.End(), pointer + span) }

  predicate Reaches(p: Packet, pointer: int, span: int) { LE32(p.timestamp, pointer) && GT32(p.End(), pointer) }

  predicate StartsIn(p: Packet, pointer: int, span: int) {
    LT32(p.timestamp, pointer + span) && GE32(p.timestamp, pointer)
  }

  datatype Kind = IsExact | IsCovering | IsReaching | IsStarting

  predicate Fits(k: Kind, p: Packet, pointer: int, span: int) {
    match k
    case IsExact => Exact(p, pointer, span)
    case IsCovering => Covers(p, pointer, span)
    case IsReaching => Reaches(p, pointer, span)
    case IsStarting => StartsIn(p, pointer, span)
  }

  predicate NoneFits(k: Kind, s: Slots, n: nat, pointer: int, span: int)
    requires n <= |s|
  {
    forall i :: 0 <= i < n && s[i].Some? ==> !Fits(k, s[i].value, pointer, span)
  }

  predicate FirstFit(k: Kind, s: Slots, i: int, pointer: int, span: int) {
    0 <= i < |s| && s[i].Some? && Fits(k, s[i].value, pointer, span) && NoneFits(k, s, i, pointer, span)
  }

  /** Earlier, or as early and longer. */
  predicate Better(p: Packet, q: Packet) {
    LT32(p.timestamp, q.timestamp) || (EQ32(p.timestamp, q.timestamp) && GT32(p.span, q.span))
  }

  /** The choice of jitter_buffer_get, -1 for none: exact, then covering, then reaching in, then the earliest start. */
  ghost predicate Chosen(s: Slots, i: int, pointer: int, span: int) {
    if exists j :: FirstFit(IsExact, s, j, pointer, span) then FirstFit(IsExact, s, i, pointer, span)
    else if exists j :: FirstFit(IsCovering, s, j, pointer, span) then FirstFit(IsCovering, s, i, pointer, span)
    else if exists j :: FirstFit(IsReaching, s, j, pointer, span) then FirstFit(IsReaching, s, i, pointer, span)
    else i == BestStart(s, |s|, pointer, span)
  }

  /** The running best of the last search over the first n slots. */
  function BestStart(s: Slots, n: nat, pointer: int, span: int): (i: int)
    requires n <= |s|
    ensures i == -1 || (0 <= i < n && s[i].Some? && StartsIn(s[i].value, pointer, span))
  {
    if n == 0 then -1
    else
      var b := BestStart(s, n - 1, pointer, span);
      var p := s[n - 1];
      if p.Some? && StartsIn(p.value, pointer, span) && (b == -1 || Better(p.value, s[b].value)) then n - 1 else b
  }

  lemma {:induction false} NoFirstFit(k: Kind, s: Slots, n: nat, pointer: int, span: int)
    requires n <= |s| && forall j :: !FirstFit(k, s, j, pointer, span)
    ensures NoneFits(k, s, n, pointer, span)
  {
    if n > 0 {
      NoFirstFit(k, s, n - 1, pointer, span);
      assert !FirstFit(k, s, n - 1, pointer, span);
    }
  }

  // ----- the unwrapped meaning -----

  /** All timestamps within half the 32-bit range. */
  predicate InWindow(s: Slots, base: int, pointer: int, span: int) {
    && base <= pointer <= pointer + span < base + HALF_RANGE
    && forall i :: 0 <= i < |s| && s[i].Some? ==> base <= s[i].value.timestamp && s[i].value.End() < base + HALF_RANGE
  }

  /** The packet has something of [pointer, pointer + span). */
  predicate Overlaps(p: Packet, pointer: int, span: int) { p.timestamp < pointer + span && pointer < p.End() }

  /** Within the window the four searches mean what they say. */
  lemma FitsInOrder(p: Packet, base: int, pointer: int, span: int)
    requires base <= pointer <= pointer + span < base + HALF_RANGE && base <= p.timestamp && p.End() < base + HALF_RANGE
    ensures Exact(p, pointer, span) == (p.timestamp == pointer && p.End() >= pointer + span)
    ensures Covers(p, pointer, span) == (p.timestamp <= pointer && p.End() >= pointer + span)
    ensures Reaches(p, pointer, span) == (p.timestamp <= pointer < p.End())
    ensures StartsIn(p, pointer, span) == (pointer <= p.timestamp < pointer + span)
    ensures LE32(p.End(), pointer) == (p.End() <= pointer)
  {
    OrderAgrees(p.timestamp, pointer);
    OrderAgrees(p.timestamp, pointer + span);
    OrderAgrees(p.End(), pointer);
    OrderAgrees(p.End(), pointer + span);
  }

  /** For positive spans, some search finds a packet exactly when the packet overlaps the span asked for. */
  lemma FoundIffOverlaps(p: Packet, base: int, pointer: int, span: int)
    requires base <= pointer <= pointer + span < base + HALF_RANGE && base <= p.timestamp && p.End() < base + HALF_RANGE
    requires span > 0 && p.span > 0
    ensures (Exact(p, pointer, span) || Covers(p, pointer, span) || Reaches(p, pointer, span)
      || StartsIn(p, pointer, span))
      <==> Overlaps(p, pointer, span)
  {
    FitsInOrder(p, base, pointer, span);
  }

  /** Loss reports are honest, and a hit is one: nothing is chosen exactly when nothing overlaps, and what is chosen
      overlaps. */
  lemma ChosenOverlaps(s: Slots, i: int, base: int, pointer: int, span: int)
    requires Chosen(s, i, pointer, span) && InWindow(s, base, pointer, span) && span > 0
    requires forall j :: 0 <= j < |s| && s[j].Some? ==> s[j].value.span > 0
    ensures i == -1 <==> forall j :: 0 <= j < |s| && s[j].Some? ==> !Overlaps(s[j].value, pointer, span)
    ensures i != -1 ==> 0 <= i < |s| && s[i].Some? && Overlaps(s[i].value, pointer, span)
  {
    hide Exact, Covers, Reaches, StartsIn, Overlaps, FirstFit, NoneFits;
    forall j | 0 <= j < |s| && s[j].Some?
      ensures (Fits(IsExact, s[j].value, pointer, span) || Fits(IsCovering, s[j].value, pointer, span)
        || Fits(IsReaching, s[j].value, pointer, span) || Fits(IsStarting, s[j].value, pointer, span))
        <==> Overlaps(s[j].value, pointer, span)
    {
      FoundIffOverlaps(s[j].value, base, pointer, span);
    }
    ChosenFits(s, i, pointer, span);
  }

  /** A choice fits in one of the four ways; no choice means nothing does. */
  lemma ChosenFits(s: Slots, i: int, pointer: int, span: int)
    requires Chosen(s, i, pointer, span)
    ensures i == -1 ==> forall j, k :: 0 <= j < |s| && s[j].Some? ==> !Fits(k, s[j].value, pointer, span)
    ensures i != -1 ==> 0 <= i < |s| && s[i].Some? && exists k :: Fits(k, s[i].value, pointer, span)
  {
    if i == -1 {
      NoFirstFit(IsExact, s, |s|, pointer, span);
      NoFirstFit(IsCovering, s, |s|, pointer, span);
      NoFirstFit(IsReaching, s, |s|, pointer, span);
      NoBestStart(s, |s|, pointer, span);
      hide Exact, Covers, Reaches, StartsIn, FirstFit;
      forall j, k | 0 <= j < |s| && s[j].Some?
        ensures !Fits(k, s[j].value, pointer, span)
      {
        match k
        case IsExact =>
        case IsCovering =>
        case IsReaching =>
        case IsStarting =>
      }
    } else if !(exists k, j :: k != IsStarting && FirstFit(k, s, j, pointer, span)) {
      assert Fits(IsStarting, s[i].value, pointer, span);
    }
  }

  /** The order of the searches, in plain numbers: a packet that starts at the pointer and lasts for the whole span;
      else one that covers the span; else one that reaches into it; and always the first slot that holds such a packet.
      Else some packet that starts within the span. */
  lemma ChosenInOrder(s: Slots, i: int, base: int, pointer: int, span: int, j: int, from: int, to: int)
    requires Chosen(s, i, pointer, span) && InWindow(s, base, pointer, span)
    requires 0 <= j < |s| && s[j].Some? && from == s[j].value.timestamp && to == from + s[j].value.span
    ensures i != -1 ==>
      0 <= i < |s| && s[i].Some? && (s[i].value.timestamp <= pointer || s[i].value.timestamp < pointer + span)
    ensures from == pointer && to >= pointer + span ==>
      0 <= i <= j && s[i].value.timestamp == pointer && s[i].value.timestamp + s[i].value.span >= pointer + span
    ensures from <= pointer && to >= pointer + span ==>
      && i != -1 && s[i].value.timestamp <= pointer && s[i].value.timestamp + s[i].value.span >= pointer + span
      && (i <= j || s[i].value.timestamp == pointer)
    ensures from <= pointer < to ==>
      && i != -1 && s[i].value.timestamp <= pointer
      && (i <= j || s[i].value.timestamp + s[i].value.span >= pointer + span)
  {
    forall j | 0 <= j < |s| && s[j].Some?
      ensures Exact(s[j].value, pointer, span)
        == (s[j].value.timestamp == pointer && s[j].value.timestamp + s[j].value.span >= pointer + span)
      ensures Covers(s[j].value, pointer, span)
        == (s[j].value.timestamp <= pointer && s[j].value.timestamp + s[j].value.span >= pointer + span)
      ensures Reaches(s[j].value, pointer, span)
        == (s[j].value.timestamp <= pointer < s[j].value.timestamp + s[j].value.span)
      ensures StartsIn(s[j].value, pointer, span) == (pointer <= s[j].value.timestamp < pointer + span)
    {
      FitsInOrder(s[j].value, base, pointer, span);
    }
    hide Exact, Covers, Reaches, StartsIn, InWindow;
    FirstFound(IsExact, s, pointer, span);
    FirstFound(IsCovering, s, pointer, span);
    FirstFound(IsReaching, s, pointer, span);
  }

  /** If a packet fits, one is first. */
  lemma FirstFound(k: Kind, s: Slots, pointer: int, span: int)
    ensures forall j :: 0 <= j < |s| && s[j].Some? && Fits(k, s[j].value, pointer, span) ==>
      exists f :: FirstFit(k, s, f, pointer, span)
  {
    hide Fits;
    if !(exists f :: FirstFit(k, s, f, pointer, span)) {
      NoFirstFit(k, s, |s|, pointer, span);
    }
  }

  lemma {:induction false} NoBestStart(s: Slots, n: nat, pointer: int, span: int)
    requires n <= |s| && BestStart(s, n, pointer, span) == -1
    ensures NoneFits(IsStarting, s, n, pointer, span)
  {
    if n > 0 {
      NoBestStart(s, n - 1, pointer, span);
    }
  }

  /** The last search takes the earliest start, and among equal starts the longest packet. */
  lemma {:induction false} BestStartIsBest(s: Slots, n: nat, base: int, pointer: int, span: int, j: int)
    requires n <= |s| && InWindow(s, base, pointer, span) && 0 <= j < n && s[j].Some?
    requires StartsIn(s[j].value, pointer, span)
    ensures var i := BestStart(s, n, pointer, span);
      && 0 <= i < n && s[i].Some?
      && (s[i].value.timestamp < s[j].value.timestamp
          || (s[i].value.timestamp == s[j].value.timestamp && s[i].value.span >= s[j].value.span))
  {
    var b := BestStart(s, n - 1, pointer, span);
    hide StartsIn;
    if b != -1 && s[n - 1].Some? {
      BetterInOrder(s[n - 1].value, s[b].value, base);
    }
    if j < n - 1 {
      BestStartIsBest(s, n - 1, base, pointer, span, j);
    }
  }

  lemma BetterInOrder(p: Packet, q: Packet, base: int)
    requires base <= p.timestamp && p.End() < base + HALF_RANGE && base <= q.timestamp && q.End() < base + HALF_RANGE
    ensures Better(p, q) == (p.timestamp < q.timestamp || (p.timestamp == q.timestamp && p.span > q.span))
  {
    OrderAgrees(p.timestamp, q.timestamp);
    OrderAgrees(p.span, q.span);
  }

  // ----- putting -----

  /** Slots whose packet has been passed by are freed. */
  function Cleaned(s: Slots, pointer: int): (t: Slots)
    ensures |t| == |s|
  {
    seq(|s|, i requires 0 <= i < |s| => if s[i].Some? && LE32(s[i].value.End(), pointer) then None else s[i])
  }

  /** Every slot free. */
  function NoPackets(): (s: Slots) {
    seq(MAX_BUFFER_SIZE, _ => None)
  }

  /** The running earliest packet of a full store over the first n slots. */
  function EarliestIndex(s: Slots, n: nat): (i: nat)
    requires 1 <= n <= |s| && forall i :: 0 <= i < |s| ==> s[i].Some?
    ensures i < n
  {
    if n == 1 then 0
    else
      var e := EarliestIndex(s, n - 1);
      if LT32(s[n - 1].value.timestamp, s[e].value.timestamp) then n - 1 else e
  }

  /** Within the window it is the earliest of all. */
  lemma {:induction false} EarliestIsEarliest(s: Slots, n: nat, base: int, j: nat)
    requires 1 <= n <= |s| && (forall i :: 0 <= i < |s| ==> s[i].Some?) && j < n
    requires forall i :: 0 <= i < |s| ==> base <= s[i].value.timestamp < base + HALF_RANGE
    ensures s[EarliestIndex(s, n)].value.timestamp <= s[j].value.timestamp
  {
    if n > 1 {
      OrderAgrees(s[n - 1].value.timestamp, s[EarliestIndex(s, n - 1)].value.timestamp);
      hide LT32;
      if j < n - 1 {
        EarliestIsEarliest(s, n - 1, base, j);
      } else {
        EarliestIsEarliest(s, n - 1, base, 0);
      }
    }
  }

  /** The running oldest packet of the first n slots, -1 if there is none: what the first get syncs to. */
  function OldestIndex(s: Slots, n: nat): (i: int)
    requires n <= |s|
    ensures i == -1 || (0 <= i < n && s[i].Some?)
  {
    if n == 0 then -1
    else
      var o := OldestIndex(s, n - 1);
      if s[n - 1].Some? && (o == -1 || LT32(s[n - 1].value.timestamp, s[o].value.timestamp)) then n - 1 else o
  }

  lemma {:induction false} OldestMissing(s: Slots, n: nat)
    requires n <= |s|
    ensures OldestIndex(s, n) == -1 <==> forall i :: 0 <= i < n ==> s[i].None?
  {
    if n > 0 {
      OldestMissing(s, n - 1);
    }
  }

  lemma {:induction false} OldestIsOldest(s: Slots, n: nat, base: int, j: nat)
    requires n <= |s| && j < n && s[j].Some?
    requires forall i :: 0 <= i < |s| && s[i].Some? ==> base <= s[i].value.timestamp < base + HALF_RANGE
    ensures var o := OldestIndex(s, n); 0 <= o < n && s[o].Some? && s[o].value.timestamp <= s[j].value.timestamp
  {
    var o := OldestIndex(s, n - 1);
    if o != -1 && s[n - 1].Some? {
      OrderAgrees(s[n - 1].value.timestamp, s[o].value.timestamp);
    }
    hide LT32;
    if j < n - 1 {
      OldestIsOldest(s, n - 1, base, j);
    }
  }
}
