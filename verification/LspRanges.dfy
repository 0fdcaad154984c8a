/** Where the line-spectrum encoder and decoder of quant_lsp.c (fixed build) agree whatever the codebooks hold, and
    where they never do: conditions on the frequencies alone. */
module LspRanges {
  import opened LspArithmetic
  import opened MachineWords
  import opened LspDecoders
  import opened LspQuantizers

  /** Encoder and decoder have the same coefficient i for the frequency f. */
  ghost predicate NbSame(b: NbBooks, ids: seq<nat>, i: nat, f: int)
    requires b.Valid() && Ids(ids, 5) && i < 10
  {
    Kept(f, 4 * (f - NbSum(b, ids, i)), 2) == Wrap16(NbSum(b, ids, i))
  }

  ghost predicate LbrSame(b: NbBooks, ids: seq<nat>, i: nat, f: int)
    requires b.Valid() && Ids(ids, 3) && i < 10
  {
    Kept(f, 2 * (f - LbrSum(b, ids, i)), 1) == Wrap16(LbrSum(b, ids, i))
  }

  ghost predicate HighSame(c1: seq<int>, c2: seq<int>, order: nat, ids: seq<nat>, i: nat, f: int)
    requires HighBooks(c1, c2, order) && Ids(ids, 2) && i < order
  {
    Kept(f, 2 * (f - HighSum(c1, c2, order, ids, i)), 1) == Wrap16(HighSum(c1, c2, order, ids, i))
  }

  // ----- how far the books reach -----

  lemma NbReach(b: NbBooks, ids: seq<nat>, i: nat)
    requires b.Valid() && Ids(ids, 5) && i < 10
    ensures -7168 <= NbSum(b, ids, i) - Linear(false, i) <= 7112
  {
    CodeInByte(b.base, 10, ids[0], i);
    if i < 5 {
      CodeInByte(b.low1, 5, ids[1], i);
      CodeInByte(b.low2, 5, ids[2], i);
    } else {
      CodeInByte(b.high1, 5, ids[3], i - 5);
      CodeInByte(b.high2, 5, ids[4], i - 5);
    }
    hide Code, Book, Linear;
  }

  lemma LbrReach(b: NbBooks, ids: seq<nat>, i: nat)
    requires b.Valid() && Ids(ids, 3) && i < 10
    ensures -6144 <= LbrSum(b, ids, i) - Linear(false, i) <= 6096
  {
    CodeInByte(b.base, 10, ids[0], i);
    if i < 5 {
      CodeInByte(b.low1, 5, ids[1], i);
    } else {
      CodeInByte(b.high1, 5, ids[2], i - 5);
    }
    hide Code, Book, Linear;
  }

  lemma HighReach(c1: seq<int>, c2: seq<int>, order: nat, ids: seq<nat>, i: nat)
    requires HighBooks(c1, c2, order) && Ids(ids, 2) && i < order
    ensures -6144 <= HighSum(c1, c2, order, ids, i) - Linear(true, i) <= 6096
  {
    CodeInByte(c1, order, ids[0], i);
    CodeInByte(c2, order, ids[1], i);
    hide Code, Book, Linear;
  }

  /** A book with the same byte everywhere. */
  function Flat(dim: nat, v: int): (cdbk: seq<int>)
    requires -128 <= v < 128
    ensures |cdbk| == CDBK_SIZE * dim && Book(cdbk, dim) && forall i :: 0 <= i < |cdbk| ==> cdbk[i] == v
  {
    seq(CDBK_SIZE * dim, _ => v)
  }

  lemma FlatCode(dim: nat, v: int, id: nat, j: nat)
    requires -128 <= v < 128 && id < CDBK_SIZE && j < dim
    ensures Code(Flat(dim, v), dim, id, j) == v
  {
    CodeFits(dim, id, j);
  }

  function FlatBooks(v: int): (b: NbBooks)
    requires -128 <= v < 128
    ensures b.Valid()
  {
    NbBooks(Flat(10, v), Flat(5, v), Flat(5, v), Flat(5, v), Flat(5, v))
  }

  /** The ends of the reach are reached. */
  lemma FlatSums(v: int, i: nat)
    requires -128 <= v < 128 && i < 10
    ensures NbSum(FlatBooks(v), [0, 0, 0, 0, 0], i) == Linear(false, i) + 56 * v
    ensures LbrSum(FlatBooks(v), [0, 0, 0], i) == Linear(false, i) + 48 * v
  {
    FlatCode(10, v, 0, i);
    FlatCode(5, v, 0, if i < 5 then i else i - 5);
    hide Code, Flat;
  }

  lemma FlatHighSum(v: int, order: nat, i: nat)
    requires -128 <= v < 128 && i < order <= 10
    ensures HighSum(Flat(order, v), Flat(order, v), order, [0, 0], i) == Linear(true, i) + 48 * v
  {
    FlatCode(order, v, 0, i);
    hide Code, Flat;
  }

  // ----- narrowband -----

  /** For every book and every choice of indices: a frequency close to its linear place survives, one far from it does
      not. */
  lemma NbByDistance(b: NbBooks, ids: seq<nat>, i: nat, f: int)
    requires b.Valid() && Ids(ids, 5) && i < 10 && 0 <= f <= LSP_PI
    ensures -1080 <= f - Linear(false, i) <= 1023 ==> NbSame(b, ids, i, f)
    ensures f - Linear(false, i) > 15303 || f - Linear(false, i) < -15360 ==> !NbSame(b, ids, i, f)
  {
    NbReach(b, ids, i);
    NbAgrees(b, f, ids, i);
    hide Kept, NbSum, Linear;
  }

  /** Both bounds are exact: nothing wider holds of all books. */
  lemma NbBoundsAreExact(i: nat, f: int)
    requires i < 10 && 0 <= f <= LSP_PI
    ensures -1080 <= f - Linear(false, i) <= 1023 <==>
      forall b: NbBooks, ids | b.Valid() && Ids(ids, 5) :: NbSame(b, ids, i, f)
    ensures f - Linear(false, i) > 15303 || f - Linear(false, i) < -15360 <==>
      forall b: NbBooks, ids | b.Valid() && Ids(ids, 5) :: !NbSame(b, ids, i, f)
  {
    forall b: NbBooks, ids | b.Valid() && Ids(ids, 5)
      ensures -1080 <= f - Linear(false, i) <= 1023 ==> NbSame(b, ids, i, f)
      ensures f - Linear(false, i) > 15303 || f - Linear(false, i) < -15360 ==> !NbSame(b, ids, i, f)
    {
      NbByDistance(b, ids, i, f);
    }
    NbFlat(-128, i, f);
    NbFlat(127, i, f);
    hide NbSame, Linear, FlatBooks;
  }

  lemma NbFlat(v: int, i: nat, f: int)
    requires -128 <= v < 128 && i < 10 && 0 <= f <= LSP_PI
    ensures Ids([0, 0, 0, 0, 0], 5)
    ensures NbSame(FlatBooks(v), [0, 0, 0, 0, 0], i, f) <==> In16(4 * (f - Linear(false, i) - 56 * v))
  {
    FlatSums(v, i);
    NbAgrees(FlatBooks(v), f, [0, 0, 0, 0, 0], i);
    hide Kept, NbSum, Linear, FlatBooks;
  }

  // ----- low rates and high band -----

  lemma LbrByDistance(b: NbBooks, ids: seq<nat>, i: nat, f: int)
    requires b.Valid() && Ids(ids, 3) && i < 10 && 0 <= f <= LSP_PI
    ensures -10288 <= f - Linear(false, i) <= 10239 ==> LbrSame(b, ids, i, f)
    ensures f - Linear(false, i) > 22479 || f - Linear(false, i) < -22528 ==> !LbrSame(b, ids, i, f)
  {
    LbrReach(b, ids, i);
    LbrAgrees(b, f, ids, i);
    hide Kept, LbrSum, Linear;
  }

  lemma LbrBoundsAreExact(i: nat, f: int)
    requires i < 10 && 0 <= f <= LSP_PI
    ensures -10288 <= f - Linear(false, i) <= 10239 <==>
      forall b: NbBooks, ids | b.Valid() && Ids(ids, 3) :: LbrSame(b, ids, i, f)
    ensures f - Linear(false, i) > 22479 || f - Linear(false, i) < -22528 <==>
      forall b: NbBooks, ids | b.Valid() && Ids(ids, 3) :: !LbrSame(b, ids, i, f)
  {
    forall b: NbBooks, ids | b.Valid() && Ids(ids, 3)
      ensures -10288 <= f - Linear(false, i) <= 10239 ==> LbrSame(b, ids, i, f)
      ensures f - Linear(false, i) > 22479 || f - Linear(false, i) < -22528 ==> !LbrSame(b, ids, i, f)
    {
      LbrByDistance(b, ids, i, f);
    }
    var low, high, ids := FlatBooks(-128), FlatBooks(127), [0, 0, 0];
    FlatSums(-128, i);
    FlatSums(127, i);
    LbrAgrees(low, f, ids, i);
    LbrAgrees(high, f, ids, i);
    assert Ids(ids, 3);
    hide Kept, LbrSum, Linear, FlatBooks;
    assert LbrSame(low, ids, i, f) || !LbrSame(low, ids, i, f);
    assert LbrSame(high, ids, i, f) || !LbrSame(high, ids, i, f);
  }

  lemma HighByDistance(c1: seq<int>, c2: seq<int>, order: nat, ids: seq<nat>, i: nat, f: int)
    requires HighBooks(c1, c2, order) && Ids(ids, 2) && i < order && 0 <= f <= LSP_PI
    ensures -10288 <= f - Linear(true, i) <= 10239 ==> HighSame(c1, c2, order, ids, i, f)
    ensures f - Linear(true, i) > 22479 || f - Linear(true, i) < -22528 ==> !HighSame(c1, c2, order, ids, i, f)
  {
    HighReach(c1, c2, order, ids, i);
    HighAgrees(c1, c2, order, f, ids, i);
    hide Kept, HighSum, Linear;
  }

  lemma HighBoundsAreExact(order: nat, i: nat, f: int)
    requires i < order <= 10 && 0 <= f <= LSP_PI
    ensures -10288 <= f - Linear(true, i) <= 10239 <==>
      forall c1, c2, ids | HighBooks(c1, c2, order) && Ids(ids, 2) :: HighSame(c1, c2, order, ids, i, f)
    ensures f - Linear(true, i) > 22479 || f - Linear(true, i) < -22528 <==>
      forall c1, c2, ids | HighBooks(c1, c2, order) && Ids(ids, 2) :: !HighSame(c1, c2, order, ids, i, f)
  {
    forall c1, c2, ids | HighBooks(c1, c2, order) && Ids(ids, 2)
      ensures -10288 <= f - Linear(true, i) <= 10239 ==> HighSame(c1, c2, order, ids, i, f)
      ensures f - Linear(true, i) > 22479 || f - Linear(true, i) < -22528 ==> !HighSame(c1, c2, order, ids, i, f)
    {
      HighByDistance(c1, c2, order, ids, i, f);
    }
    var low, high, ids := Flat(order, -128), Flat(order, 127), [0, 0];
    FlatHighSum(-128, order, i);
    FlatHighSum(127, order, i);
    HighAgrees(low, low, order, f, ids, i);
    HighAgrees(high, high, order, f, ids, i);
    assert Ids(ids, 2) && HighBooks(low, low, order) && HighBooks(high, high, order);
    hide Kept, HighSum, Linear, Flat, HighBooks;
    assert HighSame(low, low, order, ids, i, f) || !HighSame(low, low, order, ids, i, f);
    assert HighSame(high, high, order, ids, i, f) || !HighSame(high, high, order, ids, i, f);
  }

  // ----- whole frames -----

  /** All frequencies at the same place: in order, and as any frame may be. */
  function Together(order: nat, f: int): (q: seq<int>)
    requires 0 <= f <= LSP_PI
    ensures |q| == order && Ordered(q) && InBand(q)
  {
    seq(order, _ => f)
  }

  /** Whatever the books, there is an ordered frame whose first coefficient the decoder does not rebuild as the encoder
      kept it. */
  method NbCanDisagree(b: NbBooks) returns (lsp: array<int>, qlsp: array<int>, decoded: array<int>)
    requires b.Valid()
    ensures lsp.Length == qlsp.Length == decoded.Length == 10
    ensures Ordered(lsp[..]) && InBand(lsp[..]) && qlsp[0] != decoded[0]
  {
    hide Ordered, InBand, Weighable, Kept;
    lsp := new int[10](_ => LSP_PI);
    assert lsp[..] == Together(10, LSP_PI);
    OrderedWeights(lsp[..]);
    var ids;
    ids, qlsp, decoded := NbRoundTrip(lsp, b);
    NbReach(b, ids, 0);
  }

  method LbrCanDisagree(b: NbBooks) returns (lsp: array<int>, qlsp: array<int>, decoded: array<int>)
    requires b.Valid()
    ensures lsp.Length == qlsp.Length == decoded.Length == 10
    ensures Ordered(lsp[..]) && InBand(lsp[..]) && qlsp[0] != decoded[0]
  {
    hide Ordered, InBand, Weighable, Kept;
    lsp := new int[10](_ => LSP_PI);
    assert lsp[..] == Together(10, LSP_PI);
    OrderedWeights(lsp[..]);
    var ids;
    ids, qlsp, decoded := LbrRoundTrip(lsp, b);
    LbrReach(b, ids, 0);
  }

  /** In the high band it is the eighth coefficient, at the bottom of the band. */
  method HighCanDisagree(order: nat, c1: seq<int>, c2: seq<int>)
    returns (lsp: array<int>, qlsp: array<int>, decoded: array<int>)
    requires HighBooks(c1, c2, order) && order >= 8
    ensures lsp.Length == qlsp.Length == decoded.Length == order
    ensures Ordered(lsp[..]) && InBand(lsp[..]) && qlsp[7] != decoded[7]
  {
    hide Ordered, InBand, Weighable, Kept;
    lsp := new int[order](_ => 0);
    assert lsp[..] == Together(order, 0);
    OrderedWeights(lsp[..]);
    var ids;
    ids, qlsp, decoded := HighRoundTrip(lsp, order, c1, c2);
    HighReach(c1, c2, order, ids, 7);
  }
}
