/** The timing statistics of jitter.c: three sorted windows of at most 40 arrival times, their rotation, and the delay
    computed from their merge. */
module Timings {
  import opened Remainders

  const MAX_TIMINGS := 40
  const MAX_BUFFERS := 3
  const TOP_DELAY := 40

  predicate Sorted(s: seq<int>) { forall i, j :: 0 <= i < j < |s| ==> s[i] <= s[j] }

  /** kept holds the smallest of count timings in order, and dropped the others. */
  ghost predicate Keeps(kept: seq<int>, dropped: seq<int>, count: int) {
    && Sorted(kept) && |kept| == Min(count, MAX_TIMINGS) && |dropped| == count - |kept|
    && forall d :: d in dropped ==> |kept| == MAX_TIMINGS && kept[MAX_TIMINGS - 1] <= d
  }

  /** Everything that arrived. */
  ghost function Arrived(kept: seq<int>, dropped: seq<int>): multiset<int> { multiset(kept) + multiset(dropped) }

  function Inserted(s: seq<int>, pos: nat, t: int): (r: seq<int>)
    requires pos <= |s|
    ensures |r| == |s| + 1
  {
    s[..pos] + [t] + s[pos..]
  }

  lemma InsertedSorted(s: seq<int>, pos: nat, t: int)
    requires Sorted(s) && pos <= |s| && (forall i :: 0 <= i < pos ==> s[i] <= t)
    requires forall i :: pos <= i < |s| ==> t <= s[i]
    ensures Sorted(Inserted(s, pos, t)) && multiset(Inserted(s, pos, t)) == multiset(s) + multiset{t}
  {
    assert s == s[..pos] + s[pos..];
  }

  /** A timing that does not make it into a full list. */
  lemma TooEarly(kept: seq<int>, dropped: seq<int>, count: int, t: int)
    requires Keeps(kept, dropped, count) && |kept| == MAX_TIMINGS && kept[MAX_TIMINGS - 1] <= t
    ensures Keeps(kept, dropped + [t], count + 1)
    ensures Arrived(kept, dropped + [t]) == Arrived(kept, dropped) + multiset{t}
  {}

  predicate FitsAt(kept: seq<int>, pos: nat, t: int) {
    && pos <= |kept|
    && (forall i :: 0 <= i < pos ==> kept[i] <= t)
    && (forall i :: pos <= i < |kept| ==> t <= kept[i])
  }

  /** A timing that fits in a list with room. */
  lemma Joins(kept: seq<int>, dropped: seq<int>, count: int, t: int, pos: nat)
    requires Keeps(kept, dropped, count) && |kept| < MAX_TIMINGS && FitsAt(kept, pos, t)
    ensures Keeps(Inserted(kept, pos, t), dropped, count + 1)
    ensures Arrived(Inserted(kept, pos, t), dropped) == Arrived(kept, dropped) + multiset{t}
  {
    InsertedSorted(kept, pos, t);
    hide Inserted, Sorted;
  }

  /** A timing that pushes the last of a full list out. */
  lemma Pushes(kept: seq<int>, dropped: seq<int>, count: int, t: int, pos: nat, kept': seq<int>)
    requires Keeps(kept, dropped, count) && |kept| == MAX_TIMINGS && FitsAt(kept, pos, t) && pos < MAX_TIMINGS
    requires kept' == Inserted(kept, pos, t)[..MAX_TIMINGS]
    ensures var last := kept[MAX_TIMINGS - 1];
      && Keeps(kept', dropped + [last], count + 1)
      && Arrived(kept', dropped + [last]) == Arrived(kept, dropped) + multiset{t}
  {
    var r, last := Inserted(kept, pos, t), kept[MAX_TIMINGS - 1];
    InsertedSorted(kept, pos, t);
    assert r == kept' + [last];
    assert kept'[MAX_TIMINGS - 1] == r[MAX_TIMINGS - 1] && last == r[MAX_TIMINGS];
    hide Inserted;
    SortedPrefix(r, MAX_TIMINGS);
    assert multiset(r) == multiset(kept') + multiset{last};
    assert multiset(dropped + [last]) == multiset(dropped) + multiset{last};
    Exchange(multiset(kept'), multiset(kept), multiset(dropped), last, t);
  }

  lemma Exchange(a: multiset<int>, b: multiset<int>, rest: multiset<int>, last: int, t: int)
    requires a + multiset{last} == b + multiset{t}
    ensures a + (rest + multiset{last}) == (b + rest) + multiset{t}
  {
    assert a + (rest + multiset{last}) == (a + multiset{last}) + rest;
  }

  lemma SortedPrefix(s: seq<int>, n: nat)
    requires Sorted(s) && n <= |s|
    ensures Sorted(s[..n]) && (0 < n < |s| ==> s[n - 1] <= s[n])
  {}

  function Shifted(s: seq<int>, amount: int): (r: seq<int>)
    ensures |r| == |s|
  {
    seq(|s|, i requires 0 <= i < |s| => s[i] + amount)
  }

  lemma ShiftKeeps(kept: seq<int>, dropped: seq<int>, count: int, amount: int)
    requires Keeps(kept, dropped, count)
    ensures Keeps(Shifted(kept, amount), Shifted(dropped, amount), count)
  {
    forall d | d in Shifted(dropped, amount)
      ensures |kept| == MAX_TIMINGS && kept[MAX_TIMINGS - 1] + amount <= d
    {
      var i :| 0 <= i < |dropped| && Shifted(dropped, amount)[i] == d;
      assert dropped[i] in dropped;
    }
  }

  class TimingBuffer {
    const timing: array<int>
    var filled: int
    var currCount: int
    ghost var dropped: seq<int>

    ghost predicate Valid()
      reads this, timing
    {
      && timing.Length == MAX_TIMINGS && 0 <= filled <= MAX_TIMINGS
      && Keeps(timing[..filled], dropped, currCount)
    }

    ghost function Kept(): (s: seq<int>)
      requires Valid()
      reads this, timing
    {
      timing[..filled]
    }

    /** Every timing since the window was started. */
    ghost function All(): (m: multiset<int>)
      requires Valid()
      reads this, timing
      ensures |m| == currCount
    {
      Arrived(timing[..filled], dropped)
    }

    constructor ()
      ensures Valid() && All() == multiset{} && currCount == 0 && fresh(timing)
    {
      timing := new int[MAX_TIMINGS];
      filled := 0;
      currCount := 0;
      dropped := [];
    }

    /** tb_init */
    method Init()
      requires Valid()
      modifies this
      ensures Valid() && All() == multiset{} && currCount == 0
    {
      filled := 0;
      currCount := 0;
      dropped := [];
    }

    /** The memory move and the store of tb_add. */
    method InsertAt(pos: int, t: int)
      requires timing.Length == MAX_TIMINGS && 0 <= pos <= filled <= MAX_TIMINGS && pos < MAX_TIMINGS
      modifies timing
      ensures var r := Inserted(old(timing[..filled]), pos, t);
        timing[..Min(filled + 1, MAX_TIMINGS)] == r[..Min(filled + 1, MAX_TIMINGS)]
    {
      var i := if filled == MAX_TIMINGS then MAX_TIMINGS - 1 else filled;
      ghost var s := timing[..filled];
      while i > pos
        invariant pos <= i <= Min(filled, MAX_TIMINGS - 1)
        invariant forall k :: 0 <= k < i && k < filled ==> timing[k] == s[k]
        invariant forall k :: i < k <= Min(filled, MAX_TIMINGS - 1) ==> timing[k] == s[k - 1]
      {
        timing[i] := timing[i - 1];
        i := i - 1;
      }
      timing[pos] := t;
    }

    /** tb_add: the window keeps the smallest timings, in order, and counts all of them. */
    method Add(t: int)
      requires Valid()
      modifies this, timing
      ensures Valid() && currCount == old(currCount) + 1 && All() == old(All()) + multiset{t}
    {
      hide Inserted, Sorted;
      ghost var kept, was, count := timing[..filled], dropped, currCount;
      if filled >= MAX_TIMINGS && t >= timing[filled - 1] {
        TooEarly(kept, was, count, t);
        currCount := currCount + 1;
        dropped := dropped + [t];
        return;
      }
      var pos := 0;
      while pos < filled && t >= timing[pos]
        invariant 0 <= pos <= filled
        invariant forall i :: 0 <= i < pos ==> kept[i] <= t
      {
        pos := pos + 1;
      }
      FirstFit(kept, pos, t, was, count);
      InsertAt(pos, t);
      ghost var r := Inserted(kept, pos, t);
      assert r[..|r|] == r;
      hide FitsAt, Keeps, Arrived;
      if filled < MAX_TIMINGS {
        Joins(kept, was, count, t, pos);
        filled := filled + 1;
      } else {
        Pushes(kept, was, count, t, pos, timing[..MAX_TIMINGS]);
        dropped := dropped + [kept[MAX_TIMINGS - 1]];
      }
      currCount := currCount + 1;
    }

    /** timing[j] += amount for every timing kept. */
    method Shift(amount: int)
      requires Valid()
      modifies timing, this`dropped
      ensures Valid() && filled == old(filled)
      ensures Kept() == Shifted(old(Kept()), amount) && dropped == Shifted(old(dropped), amount)
    {
      ghost var kept, was := timing[..filled], dropped;
      var j := 0;
      while j < filled
        invariant 0 <= j <= filled
        invariant forall k :: 0 <= k < j ==> timing[k] == kept[k] + amount
        invariant forall k :: j <= k < filled ==> timing[k] == kept[k]
      {
        timing[j] := timing[j] + amount;
        j := j + 1;
      }
      dropped := Shifted(was, amount);
      ShiftKeeps(kept, was, currCount, amount);
      assert timing[..filled] == Shifted(kept, amount);
    }

    lemma FirstFit(kept: seq<int>, pos: nat, t: int, was: seq<int>, count: int)
      requires Keeps(kept, was, count) && pos <= |kept| && (forall i :: 0 <= i < pos ==> kept[i] <= t)
      requires pos < |kept| ==> t < kept[pos]
      requires |kept| == MAX_TIMINGS ==> t < kept[MAX_TIMINGS - 1]
      ensures FitsAt(kept, pos, t) && pos < MAX_TIMINGS
    {}
  }

  // ----- merging the windows -----

  const NEVER := 32767

  /** V lists the smallest timings of all in order, TOP_DELAY of them, or as many as there are below NEVER. */
  ghost predicate TopTimings(V: seq<int>, all: multiset<int>) {
    && Sorted(V) && |V| <= TOP_DELAY && multiset(V) <= all
    && (forall v :: v in V ==> v < NEVER)
    && forall t :: t in all - multiset(V) ==> if |V| == TOP_DELAY then V[TOP_DELAY - 1] <= t else t >= NEVER
  }

  ghost function Picked(ks: seq<seq<int>>, pos: seq<int>): multiset<int>
    requires |ks| == |pos| == MAX_BUFFERS && forall j :: 0 <= j < MAX_BUFFERS ==> 0 <= pos[j] <= |ks[j]|
  {
    multiset(ks[0][..pos[0]]) + multiset(ks[1][..pos[1]]) + multiset(ks[2][..pos[2]])
  }

  /** The merge in progress: V is made of the first pos[j] timings of each window, and nothing left is smaller. */
  ghost predicate Merging(ks: seq<seq<int>>, pos: seq<int>, V: seq<int>) {
    && |ks| == |pos| == MAX_BUFFERS
    && (forall j :: 0 <= j < MAX_BUFFERS ==> Sorted(ks[j]) && 0 <= pos[j] <= |ks[j]|)
    && |V| == pos[0] + pos[1] + pos[2] && multiset(V) == Picked(ks, pos)
    && Sorted(V) && (forall v :: v in V ==> v < NEVER)
    && forall j :: 0 <= j < MAX_BUFFERS && pos[j] < |ks[j]| && V != [] ==> V[|V| - 1] <= ks[j][pos[j]]
  }

  predicate Head(ks: seq<seq<int>>, pos: seq<int>, j: int)
    requires |ks| == |pos| == MAX_BUFFERS && forall j :: 0 <= j < MAX_BUFFERS ==> 0 <= pos[j]
  {
    0 <= j < MAX_BUFFERS && pos[j] < |ks[j]| && ks[j][pos[j]] < NEVER
  }

  /** next is the window with the smallest timing left, the first one among equals. */
  ghost predicate Latest(ks: seq<seq<int>>, pos: seq<int>, next: int)
    requires |ks| == |pos| == MAX_BUFFERS && forall j :: 0 <= j < MAX_BUFFERS ==> 0 <= pos[j]
  {
    && Head(ks, pos, next)
    && forall j :: Head(ks, pos, j) ==> ks[next][pos[next]] <= ks[j][pos[j]]
  }

  lemma TakeOneMore(s: seq<int>, n: nat)
    requires n < |s|
    ensures multiset(s[..n + 1]) == multiset(s[..n]) + multiset{s[n]}
  {
    assert s[..n + 1] == s[..n] + [s[n]];
  }

  lemma PickedStep(ks: seq<seq<int>>, pos: seq<int>, next: int)
    requires |ks| == |pos| == MAX_BUFFERS && forall j :: 0 <= j < MAX_BUFFERS ==> 0 <= pos[j] <= |ks[j]|
    requires 0 <= next < MAX_BUFFERS && pos[next] < |ks[next]|
    ensures Picked(ks, pos[next := pos[next] + 1]) == Picked(ks, pos) + multiset{ks[next][pos[next]]}
  {
    TakeOneMore(ks[next], pos[next]);
  }

  lemma MergeStep(ks: seq<seq<int>>, pos: seq<int>, V: seq<int>, next: int)
    requires Merging(ks, pos, V) && Latest(ks, pos, next)
    ensures Merging(ks, pos[next := pos[next] + 1], V + [ks[next][pos[next]]])
  {
    var v := ks[next][pos[next]];
    PickedStep(ks, pos, next);
    NewHeads(ks, pos, next);
    assert V != [] ==> V[|V| - 1] <= v;
    SortedSnoc(V, v);
    assert multiset(V + [v]) == multiset(V) + multiset{v};
    assert v < NEVER;
    hide Picked, Sorted, Latest, Head;
  }

  lemma NewHeads(ks: seq<seq<int>>, pos: seq<int>, next: int)
    requires |ks| == |pos| == MAX_BUFFERS
    requires forall j :: 0 <= j < MAX_BUFFERS ==> Sorted(ks[j]) && 0 <= pos[j] <= |ks[j]|
    requires Latest(ks, pos, next)
    ensures var pos' := pos[next := pos[next] + 1];
      forall j :: 0 <= j < MAX_BUFFERS && pos'[j] < |ks[j]| ==> ks[next][pos[next]] <= ks[j][pos'[j]]
  {
    var pos' := pos[next := pos[next] + 1];
    hide Sorted, Latest, Head;
    forall j | 0 <= j < MAX_BUFFERS && pos'[j] < |ks[j]|
      ensures ks[next][pos[next]] <= ks[j][pos'[j]]
    {
      HeadsAfter(ks, pos, next, j, pos'[j]);
    }
  }

  lemma SortedSnoc(V: seq<int>, v: int)
    requires Sorted(V) && (V != [] ==> V[|V| - 1] <= v)
    ensures Sorted(V + [v])
  {}

  lemma HeadsAfter(ks: seq<seq<int>>, pos: seq<int>, next: int, j: int, at: int)
    requires |ks| == |pos| == MAX_BUFFERS && forall j :: 0 <= j < MAX_BUFFERS ==> Sorted(ks[j]) && 0 <= pos[j]
    requires Latest(ks, pos, next) && 0 <= j < MAX_BUFFERS && pos[j] <= at < |ks[j]|
    ensures ks[next][pos[next]] <= ks[j][at]
  {
    assert pos[j] < at ==> ks[j][pos[j]] <= ks[j][at];
    assert ks[j][pos[j]] < NEVER ==> Head(ks, pos, j);
  }

  lemma TailsAreRest(k: seq<int>, n: nat, d: seq<int>)
    requires n <= |k|
    ensures Arrived(k, d) == multiset(k[..n]) + (multiset(k[n..]) + multiset(d))
  {
    assert k == k[..n] + k[n..];
  }

  /** The rest of a window: what was not picked of it. */
  ghost function Rest(k: seq<int>, n: nat, d: seq<int>): multiset<int>
    requires n <= |k|
  {
    multiset(k[n..]) + multiset(d)
  }

  /** Nothing in the rest of a window is smaller than what the merge took, dropped timings included. */
  lemma RestIsLater(k: seq<int>, d: seq<int>, count: int, n: nat, last: int, t: int, full: bool)
    requires Keeps(k, d, count) && n <= |k| && t in Rest(k, n, d)
    requires n < |k| ==> last <= k[n]
    requires full && n == MAX_TIMINGS ==> last <= k[MAX_TIMINGS - 1]
    requires !full ==> (n < |k| ==> k[n] >= NEVER) && n < MAX_TIMINGS
    ensures if full then last <= t else t >= NEVER
  {
    if t in d {
      assert |k| == MAX_TIMINGS && k[MAX_TIMINGS - 1] <= t;
      assert n < |k| ==> k[n] <= k[MAX_TIMINGS - 1];
    } else {
      assert t in k[n..];
      var i :| 0 <= i < |k[n..]| && k[n..][i] == t;
      assert k[n + i] == t;
    }
  }

  /** What the windows hold together, and what arrived in all. */
  ghost predicate AllKeep(ks: seq<seq<int>>, ds: seq<seq<int>>, counts: seq<int>) {
    |ks| == |ds| == |counts| == MAX_BUFFERS && forall j :: 0 <= j < MAX_BUFFERS ==> Keeps(ks[j], ds[j], counts[j])
  }

  ghost function AllArrived(ks: seq<seq<int>>, ds: seq<seq<int>>): multiset<int>
    requires |ks| == |ds| == MAX_BUFFERS
  {
    Arrived(ks[0], ds[0]) + Arrived(ks[1], ds[1]) + Arrived(ks[2], ds[2])
  }

  lemma Remainder(ks: seq<seq<int>>, ds: seq<seq<int>>, pos: seq<int>, t: int)
    requires |ks| == |ds| == |pos| == MAX_BUFFERS && forall j :: 0 <= j < MAX_BUFFERS ==> 0 <= pos[j] <= |ks[j]|
    ensures Picked(ks, pos) <= AllArrived(ks, ds)
    ensures t in AllArrived(ks, ds) - Picked(ks, pos) ==>
      t in Rest(ks[0], pos[0], ds[0]) || t in Rest(ks[1], pos[1], ds[1]) || t in Rest(ks[2], pos[2], ds[2])
  {
    TailsAreRest(ks[0], pos[0], ds[0]);
    TailsAreRest(ks[1], pos[1], ds[1]);
    TailsAreRest(ks[2], pos[2], ds[2]);
    var a, b, c := multiset(ks[0][..pos[0]]), multiset(ks[1][..pos[1]]), multiset(ks[2][..pos[2]]);
    var x, y, z := Rest(ks[0], pos[0], ds[0]), Rest(ks[1], pos[1], ds[1]), Rest(ks[2], pos[2], ds[2]);
    assert AllArrived(ks, ds) == (a + b + c) + (x + y + z);
  }

  /** If one window gave all 40, the last of them is one of its timings. */
  lemma AllFromOne(ks: seq<seq<int>>, pos: seq<int>, V: seq<int>, j: int)
    requires Merging(ks, pos, V) && |V| == TOP_DELAY && 0 <= j < MAX_BUFFERS && pos[j] == MAX_TIMINGS == |ks[j]|
    ensures V[TOP_DELAY - 1] <= ks[j][MAX_TIMINGS - 1]
  {
    var last := V[TOP_DELAY - 1];
    assert forall i :: 0 <= i < MAX_BUFFERS && i != j ==> ks[i][..pos[i]] == [];
    assert last in multiset(V);
    assert last in ks[j][..pos[j]];
  }

  /** Although each window kept only 40 timings, the merge finds the 40 smallest of everything that arrived. */
  lemma MergeIsTop(ks: seq<seq<int>>, ds: seq<seq<int>>, counts: seq<int>, pos: seq<int>, V: seq<int>)
    requires AllKeep(ks, ds, counts) && Merging(ks, pos, V) && |V| <= TOP_DELAY
    requires |V| == TOP_DELAY || forall j :: 0 <= j < MAX_BUFFERS ==> !Head(ks, pos, j)
    ensures TopTimings(V, AllArrived(ks, ds))
  {
    var all, full := AllArrived(ks, ds), |V| == TOP_DELAY;
    forall t | t in all - multiset(V)
      ensures if full then V[TOP_DELAY - 1] <= t else t >= NEVER
    {
      Remainder(ks, ds, pos, t);
      hide AllArrived, Picked, Arrived;
      var j :| 0 <= j < MAX_BUFFERS && t in Rest(ks[j], pos[j], ds[j]);
      OneWindow(ks, ds, counts, pos, V, j, t);
    }
    Remainder(ks, ds, pos, 0);
  }

  lemma OneWindow(ks: seq<seq<int>>, ds: seq<seq<int>>, counts: seq<int>, pos: seq<int>, V: seq<int>, j: int, t: int)
    requires AllKeep(ks, ds, counts) && Merging(ks, pos, V) && |V| <= TOP_DELAY && 0 <= j < MAX_BUFFERS
    requires |V| == TOP_DELAY || !Head(ks, pos, j)
    requires t in Rest(ks[j], pos[j], ds[j])
    ensures if |V| == TOP_DELAY then V[TOP_DELAY - 1] <= t else t >= NEVER
  {
    var full := |V| == TOP_DELAY;
    if full && pos[j] == MAX_TIMINGS {
      AllFromOne(ks, pos, V, j);
    }
    hide Picked, Rest;
    RestIsLater(ks[j], ds[j], counts[j], pos[j], if full then V[TOP_DELAY - 1] else 0, t, full);
  }
}
