/** The line-spectrum quantizers of quant_lsp.c and their inverses, fixed build. */
module LspQuantizers {
  import opened BitFields
  import opened BitStream
  import opened FrameChoices
  import opened FrameCodec
  import opened FrameSyntax
  import opened LspArithmetic
  import opened MachineWords
  import opened Remainders

  const CDBK_SIZE := 64
  const INDEX_BITS := 6
  const LSP_PI := 25736
  const VERY_LARGE32 := 2147483647

  // ----- the weights -----

  /** The smaller of the distances to the two neighbours, as 16-bit differences. */
  function Spacing(q: seq<int>, i: int): (d: int)
    requires 0 <= i < |q|
  {
    var below := Wrap16(if i == 0 then q[0] else q[i] - q[i - 1]);
    var above := Wrap16(if i == |q| - 1 then LSP_PI - q[i] else q[i + 1] - q[i]);
    if above < below then above else below
  }

  function Divisor(q: seq<int>, i: int): int
    requires 0 <= i < |q|
  {
    Wrap16(300 + Spacing(q, i))
  }

  /** C division, truncated toward zero. */
  function Truncated(a: int, b: int): int
    requires a >= 0 && b != 0
  {
    if b > 0 then a / b else -(a / -b)
  }

  /** No division by zero. */
  predicate Weighable(q: seq<int>) { forall i :: 0 <= i < |q| ==> Divisor(q, i) != 0 }

  function Weights(q: seq<int>): (w: seq<int>)
    requires Weighable(q)
    ensures |w| == |q|
  {
    seq(|q|, i requires 0 <= i < |q| => Wrap16(Truncated(81920, Divisor(q, i))))
  }

  predicate Ordered(q: seq<int>) {
    && (forall i :: 0 <= i < |q| ==> 0 <= q[i] <= LSP_PI)
    && (forall i, j :: 0 <= i < j < |q| ==> q[i] <= q[j])
  }

  /** Ordered frequencies never divide by zero, every weight is positive, and closer neighbours weigh no less. */
  lemma OrderedWeights(q: seq<int>)
    requires Ordered(q)
    ensures Weighable(q) && forall i :: 0 <= i < |q| ==> 3 <= Weights(q)[i] <= 273
    ensures forall i, j :: 0 <= i < |q| && 0 <= j < |q| && Spacing(q, i) <= Spacing(q, j) ==>
      Weights(q)[i] >= Weights(q)[j]
  {
    forall i | 0 <= i < |q|
      ensures 0 <= Spacing(q, i) <= LSP_PI && Divisor(q, i) == 300 + Spacing(q, i)
    {}
    hide Spacing, Divisor;
    forall i | 0 <= i < |q|
      ensures 3 <= Weights(q)[i] <= 273
    {
      QuotientBounds(300 + Spacing(q, i));
    }
    forall i, j | 0 <= i < |q| && 0 <= j < |q| && Spacing(q, i) <= Spacing(q, j)
      ensures Weights(q)[i] >= Weights(q)[j]
    {
      QuotientBounds(300 + Spacing(q, i));
      QuotientBounds(300 + Spacing(q, j));
      QuotientFalls(300 + Spacing(q, i), 300 + Spacing(q, j));
    }
  }

  /** A weight is 81920 over 300 plus the distance to the nearer neighbour. */
  lemma WeightIs(q: seq<int>, i: int)
    requires Ordered(q) && 0 <= i < |q|
    ensures Weighable(q)
    ensures var below := if i == 0 then q[0] else q[i] - q[i - 1];
      var above := if i == |q| - 1 then 25736 - q[i] else q[i + 1] - q[i];
      Weights(q)[i] == 81920 / (300 + Min(below, above))
  {
    OrderedWeights(q);
    hide Ordered;
    QuotientBounds(300 + Spacing(q, i));
  }

  lemma QuotientBounds(b: int)
    requires 300 <= b <= 26036
    ensures 3 <= 81920 / b <= 273
  {}

  lemma QuotientFalls(b: int, c: int)
    requires 0 < b <= c
    ensures 81920 / b >= 81920 / c
  {
    if 81920 / b < 81920 / c {
      Falls(81920 / b, 81920 / c, b, c);
    }
  }

  lemma Falls(x: int, y: int, b: int, c: int)
    requires 0 < b <= c && 0 <= x < y && y * c <= 81920
    ensures (x + 1) * b <= 81920
  {}

  /** The distance from each frequency to the one before, as 16-bit differences; the band's ends count as neighbours. */
  function Gap(q: seq<int>, j: int): int
    requires |q| > 0 && 0 <= j <= |q|
  {
    Wrap16(if j == 0 then q[0] else if j == |q| then LSP_PI - q[|q| - 1] else q[j] - q[j - 1])
  }

  /** A gap of -300 next to one that is not smaller. */
  predicate FatalGap(q: seq<int>, j: int)
    requires |q| > 0 && 0 <= j <= |q|
  {
    Gap(q, j) == -300 && ((j > 0 && Gap(q, j - 1) >= -300) || (j < |q| && Gap(q, j + 1) >= -300))
  }

  lemma DivisorIsZero(q: seq<int>, i: int)
    requires 0 <= i < |q|
    ensures Divisor(q, i) == 0 <==> Spacing(q, i) == -300
    ensures Spacing(q, i) == if Gap(q, i + 1) < Gap(q, i) then Gap(q, i + 1) else Gap(q, i)
  {
    assert -32768 <= Spacing(q, i) < 32768;
    hide Spacing;
    if 300 + Spacing(q, i) >= 32768 {
      assert Wrap16(300 + Spacing(q, i)) == 300 + Spacing(q, i) - 65536;
    }
  }

  /** For all frequencies whatever: the weights divide by zero exactly when some gap is -300 and the gap on one side of
      it is no smaller. */
  lemma WeighableIff(q: seq<int>)
    requires |q| > 0
    ensures Weighable(q) <==> forall i :: 0 <= i < |q| ==> Spacing(q, i) != -300
    ensures Weighable(q) <==> forall j :: 0 <= j <= |q| ==> !FatalGap(q, j)
  {
    forall i | 0 <= i < |q|
      ensures Divisor(q, i) == 0 <==> Spacing(q, i) == -300
      ensures Spacing(q, i) == if Gap(q, i + 1) < Gap(q, i) then Gap(q, i + 1) else Gap(q, i)
    {
      DivisorIsZero(q, i);
    }
    hide Divisor, Spacing, Gap;
    if i :| 0 <= i < |q| && Spacing(q, i) == -300 {
      assert FatalGap(q, i) || FatalGap(q, i + 1);
    }
    if j :| 0 <= j <= |q| && FatalGap(q, j) {
      if j > 0 && Gap(q, j - 1) >= -300 {
        assert Spacing(q, j - 1) == -300;
      } else {
        assert Spacing(q, j) == -300;
      }
    }
  }

  /** Ten frequencies of the band, two of them 300 out of order, that do divide by zero. */
  lemma DisorderDividesByZero()
    ensures !Weighable([3000, 6000, 9000, 10500, 10000, 9700, 12000, 13000, 15000, 18000])
  {
    var q := [3000, 6000, 9000, 10500, 10000, 9700, 12000, 13000, 15000, 18000];
    assert Divisor(q, 5) == 0;
  }

  /** And ten that do not, although two are 300 out of order: both their neighbours are further out of order. */
  lemma DisorderMayBeHarmless()
    ensures var q := [3000, 6000, 9000, 10500, 10000, 9700, 9300, 12000, 15000, 18000];
      q[5] == q[4] - 300 && Weighable(q)
  {
    var q := [3000, 6000, 9000, 10500, 10000, 9700, 9300, 12000, 15000, 18000];
    forall j | 0 <= j <= |q|
      ensures !FatalGap(q, j)
    {
      assert Gap(q, 4) == -500 && Gap(q, 5) == -300 && Gap(q, 6) == -400;
    }
    hide Weighable, FatalGap;
    WeighableIff(q);
  }

  /** compute_quant_weights */
  method ComputeQuantWeights(q: array<int>, order: nat) returns (weight: array<int>)
    requires order <= q.Length && Weighable(q[..order])
    ensures fresh(weight) && weight[..] == Weights(q[..order])
  {
    hide Wrap16, Truncated;
    weight := new int[order];
    for i := 0 to order
      invariant forall k :: 0 <= k < i ==> weight[k] == Weights(q[..order])[k]
    {
      assert Divisor(q[..order], i) != 0;
      var tmp1 := Wrap16(if i == 0 then q[i] else q[i] - q[i - 1]);
      var tmp2 := Wrap16(if i == order - 1 then LSP_PI - q[i] else q[i + 1] - q[i]);
      if tmp2 < tmp1 {
        tmp1 := tmp2;
      }
      weight[i] := Wrap16(Truncated(81920, Wrap16(300 + tmp1)));
    }
  }

  // ----- the searches -----

  /** n entries of dim signed bytes each. */
  ghost predicate Book(cdbk: seq<int>, dim: nat) {
    |cdbk| == CDBK_SIZE * dim && forall i :: 0 <= i < |cdbk| ==> -128 <= cdbk[i] < 128
  }

  function Code(cdbk: seq<int>, dim: nat, id: nat, j: nat): int
    requires |cdbk| == CDBK_SIZE * dim && id < CDBK_SIZE && j < dim
  {
    CodeFits(dim, id, j);
    cdbk[id * dim + j]
  }

  lemma CodeFits(dim: nat, id: nat, j: nat)
    requires id < CDBK_SIZE && j < dim
    ensures 0 <= id * dim + j < CDBK_SIZE * dim
  {
    BlockBound(id, CDBK_SIZE, dim);
    BlockFits(id, dim);
  }

  /** The part of the vector a search works on. */
  datatype Target = Target(x: seq<int>, weight: seq<int>, weighted: bool) {

    /** MULT16_32_Q15 as the macro splits it. */
    static function Q15(a: int, b: int): int
      requires b >= 0
    {
      Times(a, Wrap16(b / 32768)) + Times(a, b % 32768) / 32768
    }

    function Error(cdbk: seq<int>, id: nat, j: nat): int
      requires |cdbk| == CDBK_SIZE * |x| && id < CDBK_SIZE && j < |x|
    {
      Wrap16(x[j] - 32 * Code(cdbk, |x|, id, j))
    }

    function Term(cdbk: seq<int>, id: nat, j: nat): int
      requires |cdbk| == CDBK_SIZE * |x| && id < CDBK_SIZE && j < |x| <= |weight|
    {
      var tmp := Error(cdbk, id, j);
      SquareNotNegative(tmp);
      if weighted then Q15(weight[j], Times(tmp, tmp)) else Times(tmp, tmp)
    }

    static lemma SquareNotNegative(t: int)
      ensures Times(t, t) >= 0
    {}

    /** The accumulated error over the first n coefficients, in a 32-bit register. */
    function Distance(cdbk: seq<int>, id: nat, n: nat): (d: int)
      requires |cdbk| == CDBK_SIZE * |x| && id < CDBK_SIZE && n <= |x| <= |weight|
      ensures d <= VERY_LARGE32
    {
      if n == 0 then 0 else Wrap32(Distance(cdbk, id, n - 1) + Term(cdbk, id, n - 1))
    }

    function Distances(cdbk: seq<int>): (ds: seq<int>)
      requires |cdbk| == CDBK_SIZE * |x| && |x| <= |weight|
      ensures |ds| == CDBK_SIZE
    {
      seq(CDBK_SIZE, id requires 0 <= id < CDBK_SIZE => Distance(cdbk, id, |x|))
    }
  }

  /** The split product is the exact product shifted right by 15, while the square fits in 30 bits. */
  lemma Q15IsShift(a: int, b: int)
    requires 0 <= b < 0x4000_0000
    ensures Target.Q15(a, b) == Times(a, b) / 32768
  {
    var h, l := b / 32768, b % 32768;
    assert Times(a, b) == (Times(a, h) + Times(a, l) / 32768) * 32768 + Times(a, l) % 32768 by {
      SplitProduct(a, h, l);
    }
    QuotientUnique(Times(a, b), Times(a, h) + Times(a, l) / 32768, Times(a, l) % 32768, 32768);
  }

  lemma SplitProduct(a: int, h: int, l: int)
    ensures Times(a, 32768 * h + l) == 32768 * Times(a, h) + Times(a, l)
  {}

  /** The squared error of an entry, each coefficient's share times its weight in units of 2^-15 where there are
      weights, over the first n coefficients. */
  function ErrorSum(x: seq<int>, weight: seq<int>, weighted: bool, entry: seq<int>, n: nat): int
    requires n <= |x| && n <= |weight| && n <= |entry|
  {
    if n == 0 then 0
    else
      var d := x[n - 1] - 32 * entry[n - 1];
      ErrorSum(x, weight, weighted, entry, n - 1)
      + if weighted then Times(weight[n - 1], Times(d, d)) / 32768 else Times(d, d)
  }

  /** No coefficient's error and no sum of them overflows. */
  predicate Small(x: seq<int>, weight: seq<int>, weighted: bool, entry: seq<int>)
    requires |x| <= |weight| && |x| <= |entry|
  {
    && (forall j :: 0 <= j < |x| ==> -32768 < x[j] - 32 * entry[j] < 32768)
    && (forall n :: 0 <= n <= |x| ==> -0x8000_0000 <= ErrorSum(x, weight, weighted, entry, n) <= VERY_LARGE32)
  }

  function EntryOf(cdbk: seq<int>, dim: nat, id: nat): (e: seq<int>)
    requires |cdbk| == CDBK_SIZE * dim && id < CDBK_SIZE
    ensures |e| == dim
  {
    seq(dim, j requires 0 <= j < dim => Code(cdbk, dim, id, j))
  }

  lemma SquareFits(d: int)
    requires -32768 < d < 32768
    ensures 0 <= Times(d, d) < 0x4000_0000
  {
    var m := if d < 0 then -d else d;
    assert Times(d, d) == m * m;
    assert m * m >= 0 && (32767 - m) * m >= 0;
  }

  /** While nothing overflows the register holds the weighted squared error. */
  lemma {:induction false} DistanceIsError(t: Target, cdbk: seq<int>, id: nat, n: nat)
    requires |cdbk| == CDBK_SIZE * |t.x| && id < CDBK_SIZE && n <= |t.x| <= |t.weight|
    requires Small(t.x, t.weight, t.weighted, EntryOf(cdbk, |t.x|, id))
    ensures t.Distance(cdbk, id, n) == ErrorSum(t.x, t.weight, t.weighted, EntryOf(cdbk, |t.x|, id), n)
  {
    hide Times, Target.Q15, Wrap16, Wrap32, Code;
    if n > 0 {
      var e := EntryOf(cdbk, |t.x|, id);
      DistanceIsError(t, cdbk, id, n - 1);
      var d := t.x[n - 1] - 32 * e[n - 1];
      SquareFits(d);
      Q15IsShift(t.weight[n - 1], Times(d, d));
      Unwrapped(d, ErrorSum(t.x, t.weight, t.weighted, e, n));
    }
  }

  lemma Unwrapped(d: int, sum: int)
    requires -32768 < d < 32768 && -0x8000_0000 <= sum <= VERY_LARGE32
    ensures Wrap16(d) == d && Wrap32(sum) == sum
  {}

  /** id is the first entry of least error. */
  ghost predicate FirstLeast(ds: seq<int>, id: nat) {
    && id < |ds|
    && (forall k :: 0 <= k < |ds| ==> ds[id] <= ds[k])
    && (forall k :: 0 <= k < id ==> ds[id] < ds[k])
  }

  /** The inner loop of the searches. */
  method ErrorOf(t: Target, cdbk: seq<int>, id: nat) returns (dist: int)
    requires |cdbk| == CDBK_SIZE * |t.x| && |t.x| <= |t.weight| && id < CDBK_SIZE
    ensures dist == t.Distance(cdbk, id, |t.x|)
  {
    hide Wrap16, Wrap32, Times, Target.Q15;
    dist := 0;
    for j := 0 to |t.x|
      invariant dist == t.Distance(cdbk, id, j)
    {
      CodeFits(|t.x|, id, j);
      var tmp := Wrap16(t.x[j] - 32 * cdbk[id * |t.x| + j]);
      Target.SquareNotNegative(tmp);
      if t.weighted {
        dist := Wrap32(dist + Target.Q15(t.weight[j], Times(tmp, tmp)));
      } else {
        dist := Wrap32(dist + Times(tmp, tmp));
      }
    }
  }

  /** Unless something overflows, the entry found is the first of least weighted squared error. */
  method FindBest(t: Target, cdbk: seq<int>) returns (bestId: nat)
    requires |cdbk| == CDBK_SIZE * |t.x| && |t.x| <= |t.weight|
    ensures bestId < CDBK_SIZE && FirstLeast(t.Distances(cdbk), bestId)
    ensures (forall id :: 0 <= id < CDBK_SIZE ==> Small(t.x, t.weight, t.weighted, EntryOf(cdbk, |t.x|, id))) ==>
      FirstLeast(Errors(t, cdbk), bestId)
  {
    hide Target.Distance;
    bestId := 0;
    var bestDist := VERY_LARGE32;
    ghost var ds := t.Distances(cdbk);
    for i := 0 to CDBK_SIZE
      invariant bestId < CDBK_SIZE && bestDist <= VERY_LARGE32
      invariant if bestDist == VERY_LARGE32 then bestId == 0 else bestId < i && bestDist == ds[bestId]
      invariant forall k :: 0 <= k < i ==> bestDist <= ds[k]
      invariant bestDist < VERY_LARGE32 ==> forall k :: 0 <= k < bestId ==> bestDist < ds[k]
    {
      var dist := ErrorOf(t, cdbk, i);
      assert dist == ds[i];
      if dist < bestDist {
        bestDist := dist;
        bestId := i;
      }
    }
    assert forall k :: 0 <= k < CDBK_SIZE ==> ds[k] <= VERY_LARGE32;
    LeastError(t, cdbk, bestId);
  }

  /** The weighted squared errors of all entries. */
  function Errors(t: Target, cdbk: seq<int>): (es: seq<int>)
    requires |cdbk| == CDBK_SIZE * |t.x| && |t.x| <= |t.weight|
    ensures |es| == CDBK_SIZE
  {
    seq(CDBK_SIZE, id requires 0 <= id < CDBK_SIZE =>
        ErrorSum(t.x, t.weight, t.weighted, EntryOf(cdbk, |t.x|, id), |t.x|))
  }

  lemma LeastError(t: Target, cdbk: seq<int>, id: nat)
    requires |cdbk| == CDBK_SIZE * |t.x| && |t.x| <= |t.weight| && FirstLeast(t.Distances(cdbk), id)
    ensures (forall k :: 0 <= k < CDBK_SIZE ==> Small(t.x, t.weight, t.weighted, EntryOf(cdbk, |t.x|, k))) ==>
      FirstLeast(Errors(t, cdbk), id)
  {
    hide Small, ErrorSum, Target.Distance, EntryOf;
    if forall k :: 0 <= k < CDBK_SIZE ==> Small(t.x, t.weight, t.weighted, EntryOf(cdbk, |t.x|, k)) {
      forall k | 0 <= k < CDBK_SIZE
        ensures t.Distances(cdbk)[k] == Errors(t, cdbk)[k]
      {
        DistanceIsError(t, cdbk, k, |t.x|);
      }
      assert t.Distances(cdbk) == Errors(t, cdbk);
    }
  }

  // ----- the residual -----

  /** The exact residual: the entry taken off n coefficients from off on. */
  function Subtracted(e: seq<int>, off: nat, cdbk: seq<int>, dim: nat, id: nat): (r: seq<int>)
    requires off + dim <= |e| && |cdbk| == CDBK_SIZE * dim && id < CDBK_SIZE
    ensures |r| == |e|
  {
    seq(|e|, i requires 0 <= i < |e| => if off <= i < off + dim then e[i] - 32 * Code(cdbk, dim, id, i - off) else e[i])
  }

  function Doubled(e: seq<int>, lo: nat, hi: nat): (r: seq<int>)
    ensures |r| == |e|
  {
    seq(|e|, i requires 0 <= i < |e| => if lo <= i < hi then 2 * e[i] else e[i])
  }

  /** The 16-bit array q holds the exact residual e, wrapped. */
  ghost predicate Tracks(q: seq<int>, e: seq<int>) {
    |e| <= |q| && forall i :: 0 <= i < |e| ==> q[i] == Wrap16(e[i])
  }

  function Stored(e: seq<int>): (q: seq<int>)
    ensures |q| == |e|
  {
    seq(|e|, i requires 0 <= i < |e| => Wrap16(e[i]))
  }

  /** id is the first entry closest to the coefficients from off on of the residual e. */
  ghost predicate Chosen(e: seq<int>, off: nat, weight: seq<int>, weighted: bool, cdbk: seq<int>, dim: nat, id: nat)
    requires off + dim <= |e| && |cdbk| == CDBK_SIZE * dim && dim <= |weight|
  {
    FirstLeast(Target(Stored(e)[off..off + dim], weight, weighted).Distances(cdbk), id)
  }

  /** The entry found is taken off the vector. */
  method TakeOff(x: array<int>, off: nat, cdbk: seq<int>, dim: nat, id: nat, ghost e: seq<int>)
    requires off + dim <= |e| && |cdbk| == CDBK_SIZE * dim && id < CDBK_SIZE && Tracks(x[..], e)
    modifies x
    ensures Tracks(x[..], Subtracted(e, off, cdbk, dim, id))
  {
    hide Wrap16;
    for j := 0 to dim
      invariant forall i :: 0 <= i < |e| ==>
        x[i] == Wrap16(if off <= i < off + j then Subtracted(e, off, cdbk, dim, id)[i] else e[i])
    {
      CodeFits(dim, id, j);
      WrapLinear(e[off + j], 1, -32 * Code(cdbk, dim, id, j));
      x[off + j] := Wrap16(x[off + j] - 32 * cdbk[id * dim + j]);
    }
  }

  /** lsp_quant, and with weights lsp_weight_quant: the first best entry for the dim coefficients from off on, taken off
      them. */
  method Quantize(x: array<int>, off: nat, weight: seq<int>, weighted: bool, cdbk: seq<int>, dim: nat,
                  ghost e: seq<int>)
    returns (bestId: nat)
    requires off + dim <= |e| && |cdbk| == CDBK_SIZE * dim && dim <= |weight| && Tracks(x[..], e)
    modifies x
    ensures bestId < CDBK_SIZE && Chosen(e, off, weight, weighted, cdbk, dim, bestId)
    ensures Tracks(x[..], Subtracted(e, off, cdbk, dim, bestId))
  {
    hide FirstLeast, Target.Distances, Wrap16, Subtracted;
    assert x[off..off + dim] == Stored(e)[off..off + dim];
    bestId := FindBest(Target(x[off..off + dim], weight, weighted), cdbk);
    TakeOff(x, off, cdbk, dim, bestId, e);
  }

  method Double(x: array<int>, lo: nat, hi: nat, ghost e: seq<int>)
    requires lo <= hi <= |e| && Tracks(x[..], e)
    modifies x
    ensures Tracks(x[..], Doubled(e, lo, hi))
  {
    hide Wrap16;
    ghost var s := x[..];
    for i := lo to hi
      invariant forall k :: 0 <= k < x.Length ==> x[k] == if lo <= k < i then Wrap16(2 * s[k]) else s[k]
    {
      x[i] := Wrap16(x[i] * 2);
    }
    forall k | 0 <= k < |e|
      ensures x[k] == Wrap16(Doubled(e, lo, hi)[k])
    {
      WrapLinear(e[k], 2, 0);
    }
  }

  // ----- encoding -----

  /** LSP_LINEAR and LSP_LINEAR_HIGH */
  function Linear(high: bool, i: nat): int { if high then 2560 * i + 6144 else 2048 * (i + 1) }

  function Start(lsp: seq<int>, high: bool): (e: seq<int>)
    ensures |e| == |lsp|
  {
    seq(|lsp|, i requires 0 <= i < |lsp| => lsp[i] - Linear(high, i))
  }

  /** What every encoder begins with: copy, weigh, and take the linear part off. */
  method Begin(lsp: array<int>, qlsp: array<int>, order: nat, high: bool) returns (weight: array<int>)
    requires lsp != qlsp && order <= lsp.Length && order <= qlsp.Length && Weighable(lsp[..order])
    modifies qlsp
    ensures fresh(weight) && weight[..] == Weights(lsp[..order]) && Tracks(qlsp[..], Start(lsp[..order], high))
  {
    hide Weighable, Weights, Wrap16;
    for i := 0 to order
      invariant forall k :: 0 <= k < i ==> qlsp[k] == lsp[k]
    {
      qlsp[i] := lsp[i];
    }
    assert qlsp[..order] == lsp[..order];
    weight := ComputeQuantWeights(qlsp, order);
    for i := 0 to order
      invariant weight[..] == Weights(lsp[..order])
      invariant forall k :: 0 <= k < order ==> qlsp[k] == if k < i then Wrap16(lsp[k] - Linear(high, k)) else lsp[k]
    {
      qlsp[i] := Wrap16(qlsp[i] - Linear(high, i));
    }
  }

  /** What every encoder ends with: round the residual back and take it off the input. */
  method Finish(lsp: array<int>, qlsp: array<int>, order: nat, shift: nat, ghost e: seq<int>)
    requires lsp != qlsp && order <= lsp.Length && order <= qlsp.Length && 1 <= shift <= 2 && |e| == order
    requires Tracks(qlsp[..], e)
    modifies qlsp
    ensures forall i :: 0 <= i < order ==> qlsp[i] == Kept(lsp[i], e[i], shift)
  {
    hide Wrap16, RoundShift;
    for i := 0 to order
      invariant forall k :: 0 <= k < order ==>
        qlsp[k] == Wrap16(if k < i then RoundShift(Wrap16(e[k]), shift) else e[k])
    {
      qlsp[i] := Wrap16(RoundShift(qlsp[i], shift));
    }
    for i := 0 to order
      invariant forall k :: 0 <= k < order ==>
        qlsp[k] == if k < i then Kept(lsp[k], e[k], shift) else Wrap16(RoundShift(Wrap16(e[k]), shift))
    {
      qlsp[i] := Wrap16(lsp[i] - qlsp[i]);
    }
  }

  /** One quantization, its index packed. */
  method Send(bits: SpeexBits, x: array<int>, off: nat, weight: seq<int>, weighted: bool, cdbk: seq<int>, dim: nat,
              ghost e: seq<int>)
    returns (id: nat)
    requires bits.Writing() && bits.owner && Apart(x, bits)
    requires off + dim <= |e| && |cdbk| == CDBK_SIZE * dim && dim <= |weight| && Tracks(x[..], e)
    modifies x, bits, bits.chars
    ensures bits.Writing() && bits.owner && Apart(x, bits) && (bits.chars == old(bits.chars) || fresh(bits.chars))
    ensures bits.Contents() == old(bits.Contents()) + Field(id, INDEX_BITS)
    ensures id < CDBK_SIZE && Chosen(e, off, weight, weighted, cdbk, dim, id)
    ensures Tracks(x[..], Subtracted(e, off, cdbk, dim, id))
  {
    hide Tracks, Chosen, Subtracted, Field;
    id := Quantize(x, off, weight, weighted, cdbk, dim, e);
    ghost var q := x[..];
    PackField(bits, id, INDEX_BITS);
    assert x[..] == q;
  }

  ghost predicate Apart(x: array<int>, bits: SpeexBits)
    reads bits
  {
    (x as object) != bits && (x as object) != bits.chars
  }

  lemma Six()
    ensures forall id: nat :: InWidth(id, INDEX_BITS) <==> id < CDBK_SIZE
  {
    WidthFacts();
    assert Pow2(5) == 2 * Pow2(4) && Pow2(6) == 2 * Pow2(5);
  }

  /** The narrowband books: all ten coefficients, then twice the lower and twice the upper five. */
  datatype NbBooks = NbBooks(base: seq<int>, low1: seq<int>, low2: seq<int>, high1: seq<int>, high2: seq<int>) {
    ghost predicate Valid() {
      Book(base, 10) && Book(low1, 5) && Book(low2, 5) && Book(high1, 5) && Book(high2, 5)
    }
  }

  ghost predicate Ids(ids: seq<nat>, n: nat) {
    |ids| == n && forall k :: 0 <= k < n ==> ids[k] < CDBK_SIZE
  }

  /** The exact residual before each of the five searches of lsp_quant_nb, and after the last. */
  ghost function NbResiduals(b: NbBooks, lsp: seq<int>, ids: seq<nat>): (es: seq<seq<int>>)
    requires b.Valid() && |lsp| == 10 && Ids(ids, 5)
    ensures |es| == 6 && forall e :: e in es ==> |e| == 10
  {
    var e0 := Start(lsp, false);
    var e1 := Doubled(Subtracted(e0, 0, b.base, 10, ids[0]), 0, 10);
    var e2 := Doubled(Subtracted(e1, 0, b.low1, 5, ids[1]), 0, 5);
    var e3 := Subtracted(e2, 0, b.low2, 5, ids[2]);
    var e4 := Doubled(Subtracted(e3, 5, b.high1, 5, ids[3]), 5, 10);
    [e0, e1, e2, e3, e4, Subtracted(e4, 5, b.high2, 5, ids[4])]
  }

  /** Each index is the best for what the searches before it left over. */
  ghost predicate NbChosen(b: NbBooks, lsp: seq<int>, ids: seq<nat>)
    requires b.Valid() && |lsp| == 10 && Weighable(lsp) && Ids(ids, 5)
  {
    var es, w := NbResiduals(b, lsp, ids), Weights(lsp);
    && Chosen(es[0], 0, w, false, b.base, 10, ids[0])
    && Chosen(es[1], 0, w, true, b.low1, 5, ids[1]) && Chosen(es[2], 0, w, true, b.low2, 5, ids[2])
    && Chosen(es[3], 5, w[5..], true, b.high1, 5, ids[3]) && Chosen(es[4], 5, w[5..], true, b.high2, 5, ids[4])
  }

  /** What the indices say coefficient i is. */
  function NbSum(b: NbBooks, ids: seq<nat>, i: nat): int
    requires b.Valid() && Ids(ids, 5) && i < 10
  {
    2048 * (i + 1) + 32 * Code(b.base, 10, ids[0], i) +
    if i < 5 then 16 * Code(b.low1, 5, ids[1], i) + 8 * Code(b.low2, 5, ids[2], i)
    else 16 * Code(b.high1, 5, ids[3], i - 5) + 8 * Code(b.high2, 5, ids[4], i - 5)
  }

  /** The residual that is left is the difference, scaled by four. */
  lemma NbLeft(b: NbBooks, lsp: seq<int>, ids: seq<nat>, i: nat)
    requires b.Valid() && |lsp| == 10 && Ids(ids, 5) && i < 10
    ensures NbResiduals(b, lsp, ids)[5][i] == 4 * (lsp[i] - NbSum(b, ids, i))
  {
    hide Code;
    var es := NbResiduals(b, lsp, ids);
    var e0, e1, e2, e3, e4 := es[0], es[1], es[2], es[3], es[4];
    assert e1[i] == 2 * (e0[i] - 32 * Code(b.base, 10, ids[0], i));
    if i < 5 {
      assert e2[i] == 2 * (e1[i] - 32 * Code(b.low1, 5, ids[1], i));
      assert e4[i] == e3[i] == e2[i] - 32 * Code(b.low2, 5, ids[2], i);
    } else {
      assert e3[i] == e2[i] == e1[i];
      assert e4[i] == 2 * (e3[i] - 32 * Code(b.high1, 5, ids[3], i - 5));
    }
  }

  lemma RunOf(ids: seq<nat>, id: nat, width: nat)
    ensures RunBits(ids + [id], width) == RunBits(ids, width) + Field(id, width)
  {
    assert (ids + [id])[..|ids|] == ids;
  }

  lemma RunOfFive(a: nat, b: nat, c: nat, d: nat, e: nat, before: seq<bool>)
    ensures before + Field(a, 6) + Field(b, 6) + Field(c, 6) + Field(d, 6) + Field(e, 6)
      == before + RunBits([a, b, c, d, e], 6)
  {
    hide Field;
    RunOf([], a, 6);
    RunOf([a], b, 6);
    RunOf([a, b], c, 6);
    RunOf([a, b, c], d, 6);
    RunOf([a, b, c, d], e, 6);
    assert [a, b] == [a] + [b] && [a, b, c] == [a, b] + [c] && [a, b, c, d] == [a, b, c] + [d];
    assert [a, b, c, d, e] == [a, b, c, d] + [e];
    assert RunBits([], 6) == [];
    hide RunBits;
    assert RunBits([a], 6) == Field(a, 6);
  }

  /** What all encoders do first: the whole vector against the first book, unweighted. */
  method First(bits: SpeexBits, lsp: array<int>, qlsp: array<int>, order: nat, high: bool, cdbk: seq<int>)
    returns (weight: seq<int>, id: nat)
    requires bits.Writing() && bits.owner && Apart(qlsp, bits) && lsp != qlsp && Apart(lsp, bits)
    requires lsp.Length == qlsp.Length == order && |cdbk| == CDBK_SIZE * order && Weighable(lsp[..])
    modifies qlsp, bits, bits.chars
    ensures bits.Writing() && bits.owner && Apart(qlsp, bits) && Apart(lsp, bits)
    ensures bits.chars == old(bits.chars) || fresh(bits.chars)
    ensures bits.Contents() == old(bits.Contents()) + Field(id, INDEX_BITS) && lsp[..] == old(lsp[..])
    ensures weight == Weights(lsp[..]) && id < CDBK_SIZE
    ensures Chosen(Start(lsp[..], high), 0, weight, false, cdbk, order, id)
    ensures Tracks(qlsp[..], Doubled(Subtracted(Start(lsp[..], high), 0, cdbk, order, id), 0, order))
  {
    hide Tracks, Chosen, Subtracted, Doubled, Field, Weights, Weighable, Start;
    ghost var l := lsp[..];
    assert lsp[..order] == l;
    var w := Begin(lsp, qlsp, order, high);
    weight := w[..];
    ghost var e := Start(l, high);
    id := Send(bits, qlsp, 0, weight, false, cdbk, order, e);
    Double(qlsp, 0, order, Subtracted(e, 0, cdbk, order, id));
    assert lsp[..] == l;
  }

  /** Two weighted searches over five coefficients, the second at twice the scale. */
  method Twice(bits: SpeexBits, qlsp: array<int>, off: nat, weight: seq<int>, cdbk1: seq<int>, cdbk2: seq<int>,
               ghost e: seq<int>)
    returns (id1: nat, id2: nat)
    requires bits.Writing() && bits.owner && Apart(qlsp, bits) && off + 5 <= |e| && 5 <= |weight|
    requires |cdbk1| == |cdbk2| == CDBK_SIZE * 5 && Tracks(qlsp[..], e)
    modifies qlsp, bits, bits.chars
    ensures bits.Writing() && bits.owner && Apart(qlsp, bits) && (bits.chars == old(bits.chars) || fresh(bits.chars))
    ensures bits.Contents() == old(bits.Contents()) + Field(id1, INDEX_BITS) + Field(id2, INDEX_BITS)
    ensures id1 < CDBK_SIZE && id2 < CDBK_SIZE && Chosen(e, off, weight, true, cdbk1, 5, id1)
    ensures var e' := Doubled(Subtracted(e, off, cdbk1, 5, id1), off, off + 5);
      Chosen(e', off, weight, true, cdbk2, 5, id2) && Tracks(qlsp[..], Subtracted(e', off, cdbk2, 5, id2))
  {
    hide Tracks, Chosen, Subtracted, Doubled, Field;
    id1 := Send(bits, qlsp, off, weight, true, cdbk1, 5, e);
    Double(qlsp, off, off + 5, Subtracted(e, off, cdbk1, 5, id1));
    id2 := Send(bits, qlsp, off, weight, true, cdbk2, 5, Doubled(Subtracted(e, off, cdbk1, 5, id1), off, off + 5));
  }

  /** The encoder's own quantized coefficients: what is left of the residual, scaled back, is taken off the input. */
  ghost predicate NbKept(b: NbBooks, lsp: seq<int>, ids: seq<nat>, qlsp: seq<int>)
    requires b.Valid() && Ids(ids, 5)
  {
    |lsp| == |qlsp| == 10 && forall i :: 0 <= i < 10 ==> qlsp[i] == Kept(lsp[i], 4 * (lsp[i] - NbSum(b, ids, i)), 2)
  }

  /** The end of lsp_quant_nb. */
  method CloseNb(lsp: array<int>, qlsp: array<int>, b: NbBooks, ids: seq<nat>)
    requires lsp != qlsp && lsp.Length == qlsp.Length == 10 && b.Valid() && Ids(ids, 5)
    requires Tracks(qlsp[..], NbResiduals(b, lsp[..], ids)[5])
    modifies qlsp
    ensures NbKept(b, lsp[..], ids, qlsp[..])
  {
    hide Tracks, NbResiduals, Kept, NbSum;
    ghost var l, e := lsp[..], NbResiduals(b, lsp[..], ids)[5];
    Finish(lsp, qlsp, 10, 2, e);
    forall i | 0 <= i < 10
      ensures e[i] == 4 * (l[i] - NbSum(b, ids, i))
    {
      NbLeft(b, l, ids, i);
    }
  }

  /** lsp_quant_nb */
  method QuantNb(bits: SpeexBits, lsp: array<int>, qlsp: array<int>, b: NbBooks) returns (ids: seq<nat>)
    requires bits.Writing() && bits.owner && Apart(qlsp, bits) && Apart(lsp, bits) && lsp != qlsp
    requires lsp.Length == qlsp.Length == 10 && b.Valid() && Weighable(lsp[..])
    modifies qlsp, bits, bits.chars
    ensures bits.Writing() && bits.owner && Ids(ids, 5)
    ensures bits.Contents() == old(bits.Contents()) + RunBits(ids, INDEX_BITS)
    ensures bits.chars == old(bits.chars) || fresh(bits.chars)
    ensures NbChosen(b, old(lsp[..]), ids)
    ensures NbKept(b, old(lsp[..]), ids, qlsp[..])
  {
    hide Tracks, Chosen, Subtracted, Doubled, Field, RunBits, Weights, Weighable, NbKept, Start;
    ghost var l, before := lsp[..], bits.Contents();
    var weight, id0, id1, id2, id3, id4;
    weight, id0 := First(bits, lsp, qlsp, 10, false, b.base);
    ghost var e1 := Doubled(Subtracted(Start(l, false), 0, b.base, 10, id0), 0, 10);
    id1, id2 := Twice(bits, qlsp, 0, weight, b.low1, b.low2, e1);
    ghost var e3 := Subtracted(Doubled(Subtracted(e1, 0, b.low1, 5, id1), 0, 5), 0, b.low2, 5, id2);
    id3, id4 := Twice(bits, qlsp, 5, weight[5..], b.high1, b.high2, e3);
    assert lsp[..] == l;
    ids := [id0, id1, id2, id3, id4];
    RunOfFive(id0, id1, id2, id3, id4, before);
    ghost var e5 := NbResiduals(b, l, ids)[5];
    assert e5 == Subtracted(Doubled(Subtracted(e3, 5, b.high1, 5, id3), 5, 10), 5, b.high2, 5, id4);
    CloseNb(lsp, qlsp, b, ids);
  }

  /** The exact residual before each of the three searches of lsp_quant_lbr, and after the last. */
  ghost function LbrResiduals(b: NbBooks, lsp: seq<int>, ids: seq<nat>): (es: seq<seq<int>>)
    requires b.Valid() && |lsp| == 10 && Ids(ids, 3)
    ensures |es| == 4 && forall e :: e in es ==> |e| == 10
  {
    var e0 := Start(lsp, false);
    var e1 := Doubled(Subtracted(e0, 0, b.base, 10, ids[0]), 0, 10);
    var e2 := Subtracted(e1, 0, b.low1, 5, ids[1]);
    [e0, e1, e2, Subtracted(e2, 5, b.high1, 5, ids[2])]
  }

  ghost predicate LbrChosen(b: NbBooks, lsp: seq<int>, ids: seq<nat>)
    requires b.Valid() && |lsp| == 10 && Weighable(lsp) && Ids(ids, 3)
  {
    var es, w := LbrResiduals(b, lsp, ids), Weights(lsp);
    && Chosen(es[0], 0, w, false, b.base, 10, ids[0])
    && Chosen(es[1], 0, w, true, b.low1, 5, ids[1]) && Chosen(es[2], 5, w[5..], true, b.high1, 5, ids[2])
  }

  function LbrSum(b: NbBooks, ids: seq<nat>, i: nat): int
    requires b.Valid() && Ids(ids, 3) && i < 10
  {
    2048 * (i + 1) + 32 * Code(b.base, 10, ids[0], i)
    + 16 * (if i < 5 then Code(b.low1, 5, ids[1], i) else Code(b.high1, 5, ids[2], i - 5))
  }

  lemma LbrLeft(b: NbBooks, lsp: seq<int>, ids: seq<nat>, i: nat)
    requires b.Valid() && |lsp| == 10 && Ids(ids, 3) && i < 10
    ensures LbrResiduals(b, lsp, ids)[3][i] == 2 * (lsp[i] - LbrSum(b, ids, i))
  {
    hide Code;
    var es := LbrResiduals(b, lsp, ids);
    var e0, e1, e2 := es[0], es[1], es[2];
    assert e1[i] == 2 * (e0[i] - 32 * Code(b.base, 10, ids[0], i));
    if i < 5 {
      assert e2[i] == e1[i] - 32 * Code(b.low1, 5, ids[1], i);
    }
  }

  /** The encoder's own quantized coefficients: what is left of the residual, scaled back, is taken off the input. */
  ghost predicate LbrKept(b: NbBooks, lsp: seq<int>, ids: seq<nat>, qlsp: seq<int>)
    requires b.Valid() && Ids(ids, 3)
  {
    |lsp| == |qlsp| == 10 && forall i :: 0 <= i < 10 ==> qlsp[i] == Kept(lsp[i], 2 * (lsp[i] - LbrSum(b, ids, i)), 1)
  }

  /** The end of lsp_quant_lbr. */
  method CloseLbr(lsp: array<int>, qlsp: array<int>, b: NbBooks, ids: seq<nat>)
    requires lsp != qlsp && lsp.Length == qlsp.Length == 10 && b.Valid() && Ids(ids, 3)
    requires Tracks(qlsp[..], LbrResiduals(b, lsp[..], ids)[3])
    modifies qlsp
    ensures LbrKept(b, lsp[..], ids, qlsp[..])
  {
    hide Tracks, LbrResiduals, Kept, LbrSum;
    ghost var l, e := lsp[..], LbrResiduals(b, lsp[..], ids)[3];
    Finish(lsp, qlsp, 10, 1, e);
    forall i | 0 <= i < 10
      ensures e[i] == 2 * (l[i] - LbrSum(b, ids, i))
    {
      LbrLeft(b, l, ids, i);
    }
  }

  /** lsp_quant_lbr */
  method QuantLbr(bits: SpeexBits, lsp: array<int>, qlsp: array<int>, b: NbBooks) returns (ids: seq<nat>)
    requires bits.Writing() && bits.owner && Apart(qlsp, bits) && Apart(lsp, bits) && lsp != qlsp
    requires lsp.Length == qlsp.Length == 10 && b.Valid() && Weighable(lsp[..])
    modifies qlsp, bits, bits.chars
    ensures bits.Writing() && bits.owner && Ids(ids, 3)
    ensures bits.Contents() == old(bits.Contents()) + RunBits(ids, INDEX_BITS)
    ensures bits.chars == old(bits.chars) || fresh(bits.chars)
    ensures LbrChosen(b, old(lsp[..]), ids)
    ensures LbrKept(b, old(lsp[..]), ids, qlsp[..])
  {
    hide Tracks, Chosen, Subtracted, Doubled, Field, RunBits, Weights, Weighable, LbrKept, Start;
    ghost var l, before := lsp[..], bits.Contents();
    var weight, id0;
    weight, id0 := First(bits, lsp, qlsp, 10, false, b.base);
    ghost var e1 := Doubled(Subtracted(Start(l, false), 0, b.base, 10, id0), 0, 10);
    var id1 := Send(bits, qlsp, 0, weight, true, b.low1, 5, e1);
    ghost var e2 := Subtracted(e1, 0, b.low1, 5, id1);
    var id2 := Send(bits, qlsp, 5, weight[5..], true, b.high1, 5, e2);
    assert lsp[..] == l;
    ids := [id0, id1, id2];
    RunOfThree(id0, id1, id2, before);
    ghost var e3 := LbrResiduals(b, l, ids)[3];
    assert e3 == Subtracted(e2, 5, b.high1, 5, id2);
    CloseLbr(lsp, qlsp, b, ids);
  }

  lemma RunOfThree(a: nat, b: nat, c: nat, before: seq<bool>)
    ensures before + Field(a, 6) + Field(b, 6) + Field(c, 6) == before + RunBits([a, b, c], 6)
    ensures before + Field(a, 6) + Field(b, 6) == before + RunBits([a, b], 6)
  {
    hide Field;
    RunOf([], a, 6);
    RunOf([a], b, 6);
    RunOf([a, b], c, 6);
    assert [a, b] == [a] + [b] && [a, b, c] == [a, b] + [c];
    assert RunBits([], 6) == [];
    hide RunBits;
    assert RunBits([a], 6) == Field(a, 6);
  }

  /** The high-band books, for as many coefficients as the layer has. */
  ghost predicate HighBooks(c1: seq<int>, c2: seq<int>, order: nat) {
    order <= 10 && Book(c1, order) && Book(c2, order)
  }

  function HighSum(c1: seq<int>, c2: seq<int>, order: nat, ids: seq<nat>, i: nat): int
    requires HighBooks(c1, c2, order) && Ids(ids, 2) && i < order
  {
    2560 * i + 6144 + 32 * Code(c1, order, ids[0], i) + 16 * Code(c2, order, ids[1], i)
  }

  ghost function HighResidual(c1: seq<int>, order: nat, lsp: seq<int>, id: nat): (e: seq<int>)
    requires Book(c1, order) && |lsp| == order && id < CDBK_SIZE
    ensures |e| == order
  {
    Doubled(Subtracted(Start(lsp, true), 0, c1, order, id), 0, order)
  }

  lemma HighLeft(c1: seq<int>, c2: seq<int>, order: nat, lsp: seq<int>, ids: seq<nat>, i: nat)
    requires HighBooks(c1, c2, order) && |lsp| == order && Ids(ids, 2) && i < order
    ensures Subtracted(HighResidual(c1, order, lsp, ids[0]), 0, c2, order, ids[1])[i]
      == 2 * (lsp[i] - HighSum(c1, c2, order, ids, i))
  {
    hide Code;
    assert HighResidual(c1, order, lsp, ids[0])[i] == 2 * (lsp[i] - Linear(true, i) - 32 * Code(c1, order, ids[0], i));
  }

  ghost predicate HighKept(c1: seq<int>, c2: seq<int>, order: nat, lsp: seq<int>, ids: seq<nat>, qlsp: seq<int>)
    requires HighBooks(c1, c2, order) && Ids(ids, 2)
  {
    |lsp| == |qlsp| == order && forall i :: 0 <= i < order ==>
      qlsp[i] == Kept(lsp[i], 2 * (lsp[i] - HighSum(c1, c2, order, ids, i)), 1)
  }

  /** lsp_quant_high */
  method QuantHigh(bits: SpeexBits, lsp: array<int>, qlsp: array<int>, order: nat, c1: seq<int>, c2: seq<int>)
    returns (ids: seq<nat>)
    requires bits.Writing() && bits.owner && Apart(qlsp, bits) && Apart(lsp, bits) && lsp != qlsp
    requires lsp.Length == qlsp.Length == order && HighBooks(c1, c2, order) && Weighable(lsp[..])
    modifies qlsp, bits, bits.chars
    ensures bits.Writing() && bits.owner && Ids(ids, 2)
    ensures bits.Contents() == old(bits.Contents()) + RunBits(ids, INDEX_BITS)
    ensures bits.chars == old(bits.chars) || fresh(bits.chars)
    ensures Chosen(Start(old(lsp[..]), true), 0, Weights(old(lsp[..])), false, c1, order, ids[0])
    ensures Chosen(HighResidual(c1, order, old(lsp[..]), ids[0]), 0, Weights(old(lsp[..])), true, c2, order, ids[1])
    ensures HighKept(c1, c2, order, old(lsp[..]), ids, qlsp[..])
  {
    hide Tracks, Chosen, Subtracted, Doubled, Field, RunBits, Weights, Weighable, Kept, HighSum, Start;
    ghost var l, before := lsp[..], bits.Contents();
    var weight, id0;
    weight, id0 := First(bits, lsp, qlsp, order, true, c1);
    ghost var e1 := HighResidual(c1, order, l, id0);
    var id1 := Send(bits, qlsp, 0, weight, true, c2, order, e1);
    assert lsp[..] == l;
    ids := [id0, id1];
    RunOfThree(id0, id1, 0, before);
    ghost var e2 := Subtracted(e1, 0, c2, order, id1);
    Finish(lsp, qlsp, order, 1, e2);
    forall i | 0 <= i < order
      ensures e2[i] == 2 * (l[i] - HighSum(c1, c2, order, ids, i))
    {
      HighLeft(c1, c2, order, l, ids, i);
    }
  }
}
