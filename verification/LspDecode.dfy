/** The inverse line-spectrum quantizers of quant_lsp.c, and when they rebuild what the encoder kept (fixed build). */
module LspDecoders {
  import opened BitFields
  import opened BitStream
  import opened FrameCodec
  import opened FrameSyntax
  import opened LspArithmetic
  import opened MachineWords
  import opened LspQuantizers

  function Linears(order: nat, high: bool): (s: seq<int>)
    ensures |s| == order
  {
    seq(order, i requires 0 <= i < order => Linear(high, i))
  }

  /** The exact sum with an entry added to dim coefficients from off on: LSP_DIV_256 scales by 32, LSP_DIV_512 by 16 and
      LSP_DIV_1024 by 8. */
  function Added(s: seq<int>, off: nat, scale: int, cdbk: seq<int>, dim: nat, id: nat): (r: seq<int>)
    requires off + dim <= |s| && |cdbk| == CDBK_SIZE * dim && id < CDBK_SIZE
    ensures |r| == |s|
  {
    seq(|s|, i requires 0 <= i < |s| =>
        if off <= i < off + dim then s[i] + scale * Code(cdbk, dim, id, i - off) else s[i])
  }

  method SetLinear(lsp: array<int>, order: nat, high: bool)
    requires order <= lsp.Length && order <= 10
    modifies lsp
    ensures Tracks(lsp[..], Linears(order, high))
  {
    for i := 0 to order
      invariant forall k :: 0 <= k < i ==> lsp[k] == Wrap16(Linear(high, k))
    {
      lsp[i] := Wrap16(Linear(high, i));
    }
  }

  method AddEntry(lsp: array<int>, off: nat, scale: int, cdbk: seq<int>, dim: nat, id: nat, ghost s: seq<int>)
    requires off + dim <= |s| && |cdbk| == CDBK_SIZE * dim && id < CDBK_SIZE && Tracks(lsp[..], s)
    modifies lsp
    ensures Tracks(lsp[..], Added(s, off, scale, cdbk, dim, id))
  {
    hide Wrap16;
    for j := 0 to dim
      invariant forall i :: 0 <= i < |s| ==>
        lsp[i] == Wrap16(if off <= i < off + j then Added(s, off, scale, cdbk, dim, id)[i] else s[i])
    {
      CodeFits(dim, id, j);
      WrapLinear(s[off + j], 1, scale * Code(cdbk, dim, id, j));
      lsp[off + j] := Wrap16(lsp[off + j] + scale * cdbk[id * dim + j]);
    }
  }

  /** What has been read so far, from a stream that started as all. */
  ghost predicate Got(bits: SpeexBits, ids: seq<nat>, all: seq<bool>)
    requires bits.Valid()
    reads bits, bits.chars
  {
    && (!bits.overflow ==> all == RunBits(ids, INDEX_BITS) + bits.Unread())
    && (|all| >= INDEX_BITS * |ids| ==> !bits.overflow)
    && forall k :: 0 <= k < |ids| ==> ids[k] < CDBK_SIZE
  }

  method ReadIndex(bits: SpeexBits, ids: seq<nat>, ghost all: seq<bool>) returns (ids': seq<nat>)
    requires bits.Valid() && Got(bits, ids, all)
    modifies bits
    ensures bits.Valid() && bits.chars == old(bits.chars) && Got(bits, ids', all)
    ensures |ids'| == |ids| + 1 && ids'[..|ids|] == ids && ids'[|ids|] < CDBK_SIZE
  {
    hide Field, RunBits, InWidth, SpeexBits.Valid, SpeexBits.Unread, SpeexBits.Contents;
    ghost var before := bits.Unread();
    var id := TakeField(bits, INDEX_BITS);
    Six();
    RunOf(ids, id, INDEX_BITS);
    ids' := ids + [id];
    assert RunBits(ids, INDEX_BITS) + (Field(id, INDEX_BITS) + bits.Unread())
      == RunBits(ids', INDEX_BITS) + bits.Unread();
  }

  /** Read one index and add its entry. */
  method Receive(bits: SpeexBits, lsp: array<int>, off: nat, scale: int, cdbk: seq<int>, dim: nat, ids: seq<nat>,
                 ghost s: seq<int>, ghost all: seq<bool>)
    returns (ids': seq<nat>)
    requires bits.Valid() && Apart(lsp, bits) && Got(bits, ids, all)
    requires off + dim <= |s| && |cdbk| == CDBK_SIZE * dim && Tracks(lsp[..], s)
    modifies lsp, bits
    ensures bits.Valid() && Apart(lsp, bits) && bits.chars == old(bits.chars) && Got(bits, ids', all)
    ensures |ids'| == |ids| + 1 && ids'[..|ids|] == ids && ids'[|ids|] < CDBK_SIZE
    ensures Tracks(lsp[..], Added(s, off, scale, cdbk, dim, ids'[|ids|]))
  {
    hide Tracks, Added, RunBits, Got, SpeexBits.Valid;
    ghost var q := lsp[..];
    ids' := ReadIndex(bits, ids, all);
    assert lsp[..] == q;
    AddEntry(lsp, off, scale, cdbk, dim, ids'[|ids|], s);
  }

  /** The decoder's coefficients are the sums the indices say, stored in 16 bits. */
  ghost predicate NbRebuilt(b: NbBooks, ids: seq<nat>, lsp: seq<int>)
    requires b.Valid() && Ids(ids, 5)
  {
    |lsp| == 10 && forall i :: 0 <= i < 10 ==> lsp[i] == Wrap16(NbSum(b, ids, i))
  }

  /** The exact sums after each of the five additions of lsp_unquant_nb. */
  ghost function NbSums(b: NbBooks, ids: seq<nat>): (ss: seq<seq<int>>)
    requires b.Valid() && Ids(ids, 5)
    ensures |ss| == 6 && forall s :: s in ss ==> |s| == 10
  {
    var s1 := Added(Linears(10, false), 0, 32, b.base, 10, ids[0]);
    var s2 := Added(s1, 0, 16, b.low1, 5, ids[1]);
    var s3 := Added(s2, 0, 8, b.low2, 5, ids[2]);
    var s4 := Added(s3, 5, 16, b.high1, 5, ids[3]);
    [Linears(10, false), s1, s2, s3, s4, Added(s4, 5, 8, b.high2, 5, ids[4])]
  }

  lemma NbSumsEnd(b: NbBooks, ids: seq<nat>, lsp: seq<int>)
    requires b.Valid() && Ids(ids, 5) && |lsp| == 10 && Tracks(lsp, NbSums(b, ids)[5])
    ensures NbRebuilt(b, ids, lsp)
  {
    hide Code, Wrap16;
    var ss := NbSums(b, ids);
    forall i | 0 <= i < 10
      ensures ss[5][i] == NbSum(b, ids, i)
    {
      assert ss[1][i] == Linear(false, i) + 32 * Code(b.base, 10, ids[0], i);
      if i < 5 {
        assert ss[2][i] == ss[1][i] + 16 * Code(b.low1, 5, ids[1], i);
        assert ss[5][i] == ss[4][i] == ss[3][i] == ss[2][i] + 8 * Code(b.low2, 5, ids[2], i);
      } else {
        assert ss[3][i] == ss[2][i] == ss[1][i];
        assert ss[4][i] == ss[3][i] + 16 * Code(b.high1, 5, ids[3], i - 5);
      }
    }
  }

  /** lsp_unquant_nb */
  method UnquantNb(bits: SpeexBits, lsp: array<int>, b: NbBooks) returns (ids: seq<nat>)
    requires bits.Valid() && !bits.overflow && Apart(lsp, bits) && lsp.Length == 10 && b.Valid()
    modifies lsp, bits
    ensures bits.Valid() && Ids(ids, 5) && NbRebuilt(b, ids, lsp[..])
    ensures Got(bits, ids, old(bits.Unread()))
  {
    hide Tracks, Added, RunBits, NbRebuilt;
    ghost var all := bits.Unread();
    NothingGot(bits);
    SetLinear(lsp, 10, false);
    ids := Receive(bits, lsp, 0, 32, b.base, 10, [], Linears(10, false), all);
    ghost var s := Added(Linears(10, false), 0, 32, b.base, 10, ids[0]);
    ids := Receive(bits, lsp, 0, 16, b.low1, 5, ids, s, all);
    s := Added(s, 0, 16, b.low1, 5, ids[1]);
    ids := Receive(bits, lsp, 0, 8, b.low2, 5, ids, s, all);
    s := Added(s, 0, 8, b.low2, 5, ids[2]);
    ids := Receive(bits, lsp, 5, 16, b.high1, 5, ids, s, all);
    s := Added(s, 5, 16, b.high1, 5, ids[3]);
    ids := Receive(bits, lsp, 5, 8, b.high2, 5, ids, s, all);
    NbSumsEnd(b, ids, lsp[..]);
  }

  lemma NothingGot(bits: SpeexBits)
    requires bits.Valid() && !bits.overflow
    ensures Got(bits, [], bits.Unread())
  {}

  ghost predicate LbrRebuilt(b: NbBooks, ids: seq<nat>, lsp: seq<int>)
    requires b.Valid() && Ids(ids, 3)
  {
    |lsp| == 10 && forall i :: 0 <= i < 10 ==> lsp[i] == Wrap16(LbrSum(b, ids, i))
  }

  ghost function LbrSums(b: NbBooks, ids: seq<nat>): (s: seq<int>)
    requires b.Valid() && Ids(ids, 3)
    ensures |s| == 10
  {
    Added(Added(Added(Linears(10, false), 0, 32, b.base, 10, ids[0]), 0, 16, b.low1, 5, ids[1]), 5, 16, b.high1, 5,
        ids[2])
  }

  lemma LbrSumsEnd(b: NbBooks, ids: seq<nat>, lsp: seq<int>)
    requires b.Valid() && Ids(ids, 3) && |lsp| == 10 && Tracks(lsp, LbrSums(b, ids))
    ensures LbrRebuilt(b, ids, lsp)
  {
    hide Code, Wrap16;
    forall i | 0 <= i < 10
      ensures LbrSums(b, ids)[i] == LbrSum(b, ids, i)
    {}
  }

  /** lsp_unquant_lbr */
  method UnquantLbr(bits: SpeexBits, lsp: array<int>, b: NbBooks) returns (ids: seq<nat>)
    requires bits.Valid() && !bits.overflow && Apart(lsp, bits) && lsp.Length == 10 && b.Valid()
    modifies lsp, bits
    ensures bits.Valid() && Ids(ids, 3) && LbrRebuilt(b, ids, lsp[..])
    ensures Got(bits, ids, old(bits.Unread()))
  {
    hide Tracks, Added, RunBits, LbrRebuilt;
    ghost var all := bits.Unread();
    NothingGot(bits);
    SetLinear(lsp, 10, false);
    ids := Receive(bits, lsp, 0, 32, b.base, 10, [], Linears(10, false), all);
    ghost var s := Added(Linears(10, false), 0, 32, b.base, 10, ids[0]);
    ids := Receive(bits, lsp, 0, 16, b.low1, 5, ids, s, all);
    s := Added(s, 0, 16, b.low1, 5, ids[1]);
    ids := Receive(bits, lsp, 5, 16, b.high1, 5, ids, s, all);
    LbrSumsEnd(b, ids, lsp[..]);
  }

  ghost predicate HighRebuilt(c1: seq<int>, c2: seq<int>, order: nat, ids: seq<nat>, lsp: seq<int>)
    requires HighBooks(c1, c2, order) && Ids(ids, 2)
  {
    |lsp| == order && forall i :: 0 <= i < order ==> lsp[i] == Wrap16(HighSum(c1, c2, order, ids, i))
  }

  /** lsp_unquant_high */
  method UnquantHigh(bits: SpeexBits, lsp: array<int>, order: nat, c1: seq<int>, c2: seq<int>) returns (ids: seq<nat>)
    requires bits.Valid() && !bits.overflow && Apart(lsp, bits) && lsp.Length == order && HighBooks(c1, c2, order)
    modifies lsp, bits
    ensures bits.Valid() && Ids(ids, 2) && HighRebuilt(c1, c2, order, ids, lsp[..])
    ensures Got(bits, ids, old(bits.Unread()))
  {
    hide RunBits, Wrap16;
    ghost var all := bits.Unread();
    NothingGot(bits);
    SetLinear(lsp, order, true);
    ids := Receive(bits, lsp, 0, 32, c1, order, [], Linears(order, true), all);
    ghost var s := Added(Linears(order, true), 0, 32, c1, order, ids[0]);
    ids := Receive(bits, lsp, 0, 16, c2, order, ids, s, all);
  }

  // ----- agreement -----

  lemma CodeInByte(cdbk: seq<int>, dim: nat, id: nat, j: nat)
    requires Book(cdbk, dim) && id < CDBK_SIZE && j < dim
    ensures -128 <= Code(cdbk, dim, id, j) < 128
  {
    CodeFits(dim, id, j);
    InByte(cdbk, id * dim + j);
    hide Book;
  }

  lemma InByte(cdbk: seq<int>, k: int)
    requires 0 <= k < |cdbk| && forall i :: 0 <= i < |cdbk| ==> -128 <= cdbk[i] < 128
    ensures -128 <= cdbk[k] < 128
  {}

  predicate InBand(lsp: seq<int>) { forall i :: 0 <= i < |lsp| ==> 0 <= lsp[i] <= LSP_PI }

  /** For a frequency in the band, what the encoder kept is what the decoder rebuilds exactly when four times the
      quantization error fits 16 bits. */
  lemma NbAgrees(b: NbBooks, lsp: int, ids: seq<nat>, i: nat)
    requires b.Valid() && Ids(ids, 5) && i < 10 && 0 <= lsp <= LSP_PI
    ensures Kept(lsp, 4 * (lsp - NbSum(b, ids, i)), 2) == Wrap16(NbSum(b, ids, i)) <==>
      In16(4 * (lsp - NbSum(b, ids, i)))
  {
    hide Kept, Wrap16;
    AgreeWhenFits(lsp, NbSum(b, ids, i), 2, 229376);
  }

  lemma LbrAgrees(b: NbBooks, lsp: int, ids: seq<nat>, i: nat)
    requires b.Valid() && Ids(ids, 3) && i < 10 && 0 <= lsp <= LSP_PI
    ensures Kept(lsp, 2 * (lsp - LbrSum(b, ids, i)), 1) == Wrap16(LbrSum(b, ids, i)) <==>
      In16(2 * (lsp - LbrSum(b, ids, i)))
  {
    hide Kept, Wrap16;
    AgreeWhenFits(lsp, LbrSum(b, ids, i), 1, 98304);
  }

  lemma HighAgrees(c1: seq<int>, c2: seq<int>, order: nat, lsp: int, ids: seq<nat>, i: nat)
    requires HighBooks(c1, c2, order) && Ids(ids, 2) && i < order && 0 <= lsp <= LSP_PI
    ensures var sum := HighSum(c1, c2, order, ids, i);
      Kept(lsp, 2 * (lsp - sum), 1) == Wrap16(sum) <==> In16(2 * (lsp - sum))
  {
    CodeInByte(c1, order, ids[0], i);
    CodeInByte(c2, order, ids[1], i);
    hide Kept, Wrap16, Code, Book;
    AgreeWhenFits(lsp, HighSum(c1, c2, order, ids, i), 1, 98304);
  }

  /** Equal streams of indices are equal indices. */
  lemma SameIds(a: seq<nat>, b: seq<nat>, x: seq<bool>)
    requires |a| == |b| && (forall k :: 0 <= k < |a| ==> a[k] < CDBK_SIZE)
    requires forall k :: 0 <= k < |b| ==> b[k] < CDBK_SIZE
    requires RunBits(a, INDEX_BITS) == RunBits(b, INDEX_BITS) + x
    ensures a == b
  {
    Six();
    assert RunBits(a, INDEX_BITS) + [] == RunBits(a, INDEX_BITS);
    PeelRun(a, [], b, x, INDEX_BITS);
  }

  /** Coefficient by coefficient, the two agree exactly when no 16-bit step overflowed. */
  ghost predicate NbAgreement(b: NbBooks, ids: seq<nat>, lsp: seq<int>, qlsp: seq<int>, decoded: seq<int>)
    requires b.Valid() && Ids(ids, 5)
  {
    |lsp| == |qlsp| == |decoded| == 10
    && forall i :: 0 <= i < 10 ==> (qlsp[i] == decoded[i] <==> In16(4 * (lsp[i] - NbSum(b, ids, i))))
  }

  lemma NbAllAgree(b: NbBooks, ids: seq<nat>, lsp: seq<int>, qlsp: seq<int>, decoded: seq<int>)
    requires b.Valid() && Ids(ids, 5) && InBand(lsp) && NbKept(b, lsp, ids, qlsp) && NbRebuilt(b, ids, decoded)
    ensures NbAgreement(b, ids, lsp, qlsp, decoded)
  {
    hide Kept, Wrap16, NbSum, In16;
    forall i | 0 <= i < 10
      ensures qlsp[i] == decoded[i] <==> In16(4 * (lsp[i] - NbSum(b, ids, i)))
    {
      NbAgrees(b, lsp[i], ids, i);
    }
  }

  /** Quantize, send, and rebuild: narrowband. */
  method NbRoundTrip(lsp: array<int>, b: NbBooks) returns (ids: seq<nat>, qlsp: array<int>, decoded: array<int>)
    requires lsp.Length == 10 && b.Valid() && Weighable(lsp[..]) && InBand(lsp[..])
    ensures fresh(qlsp) && fresh(decoded) && Ids(ids, 5) && NbChosen(b, lsp[..], ids)
    ensures NbAgreement(b, ids, lsp[..], qlsp[..], decoded[..])
  {
    hide Weighable, NbChosen, NbKept, NbRebuilt, RunBits, InBand, NbAgreement;
    ghost var l := lsp[..];
    qlsp, decoded := new int[10], new int[10];
    var bits := new SpeexBits.Init();
    ids := QuantNb(bits, lsp, qlsp, b);
    ghost var q := qlsp[..];
    bits.Rewind();
    assert [] + RunBits(ids, INDEX_BITS) == RunBits(ids, INDEX_BITS);
    var received := UnquantNb(bits, decoded, b);
    SameIds(ids, received, bits.Unread());
    assert lsp[..] == l && qlsp[..] == q;
    NbAllAgree(b, ids, l, q, decoded[..]);
  }

  ghost predicate LbrAgreement(b: NbBooks, ids: seq<nat>, lsp: seq<int>, qlsp: seq<int>, decoded: seq<int>)
    requires b.Valid() && Ids(ids, 3)
  {
    |lsp| == |qlsp| == |decoded| == 10
    && forall i :: 0 <= i < 10 ==> (qlsp[i] == decoded[i] <==> In16(2 * (lsp[i] - LbrSum(b, ids, i))))
  }

  lemma LbrAllAgree(b: NbBooks, ids: seq<nat>, lsp: seq<int>, qlsp: seq<int>, decoded: seq<int>)
    requires b.Valid() && Ids(ids, 3) && InBand(lsp) && LbrKept(b, lsp, ids, qlsp) && LbrRebuilt(b, ids, decoded)
    ensures LbrAgreement(b, ids, lsp, qlsp, decoded)
  {
    hide Kept, Wrap16, LbrSum, In16;
    forall i | 0 <= i < 10
      ensures qlsp[i] == decoded[i] <==> In16(2 * (lsp[i] - LbrSum(b, ids, i)))
    {
      LbrAgrees(b, lsp[i], ids, i);
    }
  }

  /** Quantize, send, and rebuild: narrowband at the low rates. */
  method LbrRoundTrip(lsp: array<int>, b: NbBooks) returns (ids: seq<nat>, qlsp: array<int>, decoded: array<int>)
    requires lsp.Length == 10 && b.Valid() && Weighable(lsp[..]) && InBand(lsp[..])
    ensures fresh(qlsp) && fresh(decoded) && Ids(ids, 3) && LbrChosen(b, lsp[..], ids)
    ensures LbrAgreement(b, ids, lsp[..], qlsp[..], decoded[..])
  {
    hide Weighable, LbrChosen, LbrKept, LbrRebuilt, RunBits, InBand, LbrAgreement;
    ghost var l := lsp[..];
    qlsp, decoded := new int[10], new int[10];
    var bits := new SpeexBits.Init();
    ids := QuantLbr(bits, lsp, qlsp, b);
    ghost var q := qlsp[..];
    bits.Rewind();
    assert [] + RunBits(ids, INDEX_BITS) == RunBits(ids, INDEX_BITS);
    var received := UnquantLbr(bits, decoded, b);
    SameIds(ids, received, bits.Unread());
    assert lsp[..] == l && qlsp[..] == q;
    LbrAllAgree(b, ids, l, q, decoded[..]);
  }

  ghost predicate HighAgreement(c1: seq<int>, c2: seq<int>, order: nat, ids: seq<nat>, lsp: seq<int>, qlsp: seq<int>,
                                decoded: seq<int>)
    requires HighBooks(c1, c2, order) && Ids(ids, 2)
  {
    |lsp| == |qlsp| == |decoded| == order
    && forall i :: 0 <= i < order ==> (qlsp[i] == decoded[i] <==> In16(2 * (lsp[i] - HighSum(c1, c2, order, ids, i))))
  }

  lemma HighAllAgree(c1: seq<int>, c2: seq<int>, order: nat, ids: seq<nat>, lsp: seq<int>, qlsp: seq<int>,
                     decoded: seq<int>)
    requires HighBooks(c1, c2, order) && Ids(ids, 2) && InBand(lsp)
    requires HighKept(c1, c2, order, lsp, ids, qlsp) && HighRebuilt(c1, c2, order, ids, decoded)
    ensures HighAgreement(c1, c2, order, ids, lsp, qlsp, decoded)
  {
    hide Kept, Wrap16, HighSum, In16;
    forall i | 0 <= i < order
      ensures qlsp[i] == decoded[i] <==> In16(2 * (lsp[i] - HighSum(c1, c2, order, ids, i)))
    {
      HighAgrees(c1, c2, order, lsp[i], ids, i);
    }
  }

  /** Quantize, send, and rebuild: high band. */
  method HighRoundTrip(lsp: array<int>, order: nat, c1: seq<int>, c2: seq<int>)
    returns (ids: seq<nat>, qlsp: array<int>, decoded: array<int>)
    requires lsp.Length == order && HighBooks(c1, c2, order) && Weighable(lsp[..]) && InBand(lsp[..])
    ensures fresh(qlsp) && fresh(decoded) && Ids(ids, 2)
    ensures HighAgreement(c1, c2, order, ids, lsp[..], qlsp[..], decoded[..])
  {
    hide Weighable, Chosen, HighKept, HighRebuilt, RunBits, InBand, HighAgreement;
    ghost var l := lsp[..];
    qlsp, decoded := new int[order], new int[order];
    var bits := new SpeexBits.Init();
    ids := QuantHigh(bits, lsp, qlsp, order, c1, c2);
    ghost var q := qlsp[..];
    bits.Rewind();
    assert [] + RunBits(ids, INDEX_BITS) == RunBits(ids, INDEX_BITS);
    var received := UnquantHigh(bits, decoded, order, c1, c2);
    SameIds(ids, received, bits.Unread());
    assert lsp[..] == l && qlsp[..] == q;
    HighAllAgree(c1, c2, order, ids, l, q, decoded[..]);
  }
}
