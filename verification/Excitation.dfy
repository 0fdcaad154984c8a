/** The excitation on both ends of the stream: in the float build the decoder adds it to what its buffer holds, as the
    encoder does; in the fixed-point build the decoder stores it over what its buffer holds, while the encoder still
    adds it. */
module ExcitationAgreement {
  import opened BitStream
  import opened ByteBits
  import opened CodebookCoding
  import opened CodebookSearch
  import opened FixedFilters
  import opened MachineWords
  import opened Remainders
  import opened ShapeCodebook
  import opened Signals

  // ----- float build -----

  /** The search runs, its bits are rewound, and the decoder reads them: both ends have added the same excitation, so
      their buffers agree afterwards exactly if they agreed before. */
  method SearchAndDecode(target: array<real>, ak: seq<real>, awk1: seq<real>, awk2: seq<real>, cb: Codebook,
                         exc: array<real>, r: Signal, complexity: int, updateTarget: bool, decoded: array<real>)
    returns (ghost ind: seq<int>, ghost beams: seq<seq<seq<int>>>)
    requires Problem(cb, target[..], r).Valid() && cb.Entries() >= 6 && cb.nbSubvect > 0 && IndexWidth(cb) <= 32
    requires |ak| == |awk1| == |awk2| > 0 && target.Length <= exc.Length && target.Length <= decoded.Length
    requires exc != target && decoded != exc && decoded != target
    modifies target, exc, decoded
    ensures old(Problem(cb, target[..], r)).Valid()
    ensures Found(old(Problem(cb, target[..], r)), Survivors(complexity), ind, beams)
    ensures cb.AreIndices(ind) && |cb.Excitation(ind)| == target.Length
    ensures exc[..target.Length] == Plus(old(exc[..target.Length]), cb.Excitation(ind))
    ensures decoded[..target.Length] == Plus(old(decoded[..target.Length]), cb.Excitation(ind))
    ensures exc[target.Length..] == old(exc[target.Length..])
    ensures decoded[target.Length..] == old(decoded[target.Length..])
    ensures exc[..target.Length] == decoded[..target.Length] <==>
      old(exc[..target.Length]) == old(decoded[..target.Length])
  {
    assert cb.Valid() && target.Length == cb.nbSubvect * cb.subvectSize && cb.shapeBits <= 32;
    hide *;
    ghost var n := target.Length;
    ghost var before, other := exc[..n], decoded[..n];
    var bits := new SpeexBits.Init();
    ind, beams := SplitCbSearchShapeSign(target, ak, awk1, awk2, cb, exc, r, bits, complexity, updateTarget);
    assert |ind| == cb.nbSubvect by { FoundLength(old(Problem(cb, target[..], r)), Survivors(complexity), ind, beams); }
    assert bits.Contents() == IndexBits(cb, ind);
    bits.Rewind();
    assert decoded[..n] == other;
    ghost var read := SplitCbShapeSignUnquant(decoded, cb, target.Length, bits);
    DecoderAgrees(cb, ind, read, IndexBits(cb, ind));
    PlusCancels(before, other, cb.Excitation(ind));
  }

  lemma FoundLength(p: Problem, n: nat, ind: seq<int>, beams: seq<seq<seq<int>>>)
    requires p.Valid() && Found(p, n, ind, beams)
    ensures |ind| == p.cb.nbSubvect
  {}

  lemma PlusCancels(a: Signal, b: Signal, e: Signal)
    requires |a| == |b| == |e|
    ensures Plus(a, e) == Plus(b, e) <==> a == b
  {
    if Plus(a, e) == Plus(b, e) {
      forall n | 0 <= n < |a|
        ensures a[n] == b[n]
      {
        assert Plus(a, e)[n] == Plus(b, e)[n];
      }
    }
  }

  // ----- fixed-point build -----

  /** shape_cb is a table of signed chars. */
  predicate SignedBytes(cb: Codebook) { forall n :: 0 <= n < |cb.shape| ==> -128 <= cb.shape[n] <= 127 }

  /** A codeword's sample shifted left by SIG_SHIFT - 5, with the sign the index has. */
  function FixedSample(cb: Codebook, ind: int, m: nat): (x: int)
    requires cb.Valid() && SignedBytes(cb) && cb.IsIndex(ind) && m < cb.subvectSize
    ensures -65536 <= x <= 65536
  {
    cb.RowInTable(cb.Row(ind), m);
    var shifted := cb.shape[cb.Row(ind) * cb.subvectSize + m] * 512;
    if ind >= cb.Entries() then -shifted else shifted
  }

  /** e is the excitation x in units of 2 to the -SIG_SHIFT, every sample well inside 32 bits. */
  predicate InSignalUnits(e: seq<int>, x: Signal) {
    |e| == |x| && forall n :: 0 <= n < |e| ==> -65536 <= e[n] <= 65536 && e[n] as real == 16384.0 * x[n]
  }

  /** The loop both ends share: subvector by subvector, the samples are stored from the front. */
  method StoreExcitation(cb: Codebook, ind: seq<int>, e: array<int>)
    requires cb.Valid() && SignedBytes(cb) && cb.AreIndices(ind) && |ind| * cb.subvectSize <= e.Length
    modifies e
    ensures 0 <= |ind| * cb.subvectSize && InSignalUnits(e[..|ind| * cb.subvectSize], cb.Excitation(ind))
    ensures e[|ind| * cb.subvectSize..] == old(e[|ind| * cb.subvectSize..])
  {
    hide Codebook.Excitation, Codebook.Sample, FixedSample;
    var L := cb.subvectSize;
    BlockFits(|ind|, L);
    ghost var x := cb.Excitation(ind);
    for i := 0 to |ind|
      invariant 0 <= i * L <= |x| && InSignalUnits(e[..i * L], x[..i * L])
      invariant e[|x|..] == old(e[|x|..])
    {
      BlockFits(i, L);
      BlockBound(i, |ind|, L);
      var start := i * L;
      for j := 0 to L
        invariant InSignalUnits(e[..start + j], x[..start + j])
        invariant e[|x|..] == old(e[|x|..])
      {
        cb.ExcitationAt(ind, i, j);
        SampleInUnits(cb, ind[i], j);
        e[start + j] := FixedSample(cb, ind[i], j);
      }
    }
    assert x[..|x|] == x;
  }

  lemma SampleInUnits(cb: Codebook, ind: int, m: nat)
    requires cb.Valid() && SignedBytes(cb) && cb.IsIndex(ind) && m < cb.subvectSize
    ensures FixedSample(cb, ind, m) as real == 16384.0 * cb.Sample(ind, m)
  {}

  /** The encoder's end: a buffer of its own is filled and added, in 32 bits. */
  method AddExcitation(cb: Codebook, ind: seq<int>, exc: array<int>) returns (ghost e: seq<int>)
    requires cb.Valid() && SignedBytes(cb) && cb.AreIndices(ind) && |ind| * cb.subvectSize <= exc.Length
    modifies exc
    ensures InSignalUnits(e, cb.Excitation(ind))
    ensures forall n :: 0 <= n < |e| ==> exc[n] == Wrap32(old(exc[n]) + e[n])
    ensures exc[|e|..] == old(exc[|e|..])
  {
    hide Codebook.Excitation, Wrap32;
    BlockFits(|ind|, cb.subvectSize);
    var own := new int[|ind| * cb.subvectSize];
    StoreExcitation(cb, ind, own);
    e := own[..];
    assert own[..own.Length] == e;
    hide InSignalUnits;
    for j := 0 to own.Length
      invariant own[..] == e
      invariant forall n :: 0 <= n < j ==> exc[n] == Wrap32(old(exc[n]) + e[n])
      invariant forall n :: j <= n < exc.Length ==> exc[n] == old(exc[n])
    {
      exc[j] := Wrap32(exc[j] + own[j]);
    }
  }

  /** The decoder's end: the indices are read and their excitation stored. */
  method StoreUnquantized(exc: array<int>, cb: Codebook, nsf: nat, bits: SpeexBits) returns (ghost ind: seq<int>)
    requires cb.Valid() && SignedBytes(cb) && cb.shapeBits <= 32 && nsf == cb.nbSubvect * cb.subvectSize <= exc.Length
    requires bits.Valid()
    modifies exc, bits
    ensures |ind| == cb.nbSubvect && cb.AreIndices(ind) && InSignalUnits(exc[..nsf], cb.Excitation(ind))
    ensures exc[nsf..] == old(exc[nsf..])
    ensures !old(bits.overflow) && |old(bits.Unread())| >= cb.nbSubvect * IndexWidth(cb) ==>
      IndexBits(cb, ind) <= old(bits.Unread())
  {
    hide Codebook.Excitation, IndexBits, InSignalUnits;
    BlockFits(cb.nbSubvect, IndexWidth(cb));
    var read := UnpackIndices(cb, cb.nbSubvect, bits);
    ind := read;
    StoreExcitation(cb, read, exc);
  }

  /** In 32 bits, adding the excitation to a sample gives the excitation exactly if the sample was zero. */
  lemma SumIsExcitation(before: int, e: int)
    requires In32(before) && -65536 <= e <= 65536
    ensures Wrap32(before + e) == e <==> before == 0
  {}

  lemma SameUnits(a: seq<int>, b: seq<int>, x: Signal)
    requires InSignalUnits(a, x) && InSignalUnits(b, x)
    ensures a == b
  {
    forall n | 0 <= n < |x|
      ensures a[n] == b[n]
    {
      assert a[n] as real == b[n] as real;
    }
  }

  /** A stream of its own holding the packed indices, about to be read. */
  method PackRewound(cb: Codebook, sent: seq<int>) returns (bits: SpeexBits)
    requires IndexWidth(cb) <= 32
    ensures fresh(bits) && fresh(bits.chars) && bits.Valid() && !bits.overflow && bits.Unread() == IndexBits(cb, sent)
  {
    hide IndexBits, Clear, Bits;
    bits := new SpeexBits.Init();
    PackIndices(cb, sent, bits);
    bits.Rewind();
    assert [] + IndexBits(cb, sent) == IndexBits(cb, sent);
  }

  /** Both ends of the fixed-point build: the two buffers agree afterwards exactly if the encoder's held zeros before,
      whatever the decoder's held. */
  method PackAndStore(cb: Codebook, sent: seq<int>, exc: array<int>, decoded: array<int>, nsf: nat)
    requires cb.Valid() && SignedBytes(cb) && IndexWidth(cb) <= 32 && cb.AreIndices(sent) && |sent| == cb.nbSubvect
    requires nsf == cb.nbSubvect * cb.subvectSize && nsf <= exc.Length && nsf <= decoded.Length && exc != decoded
    requires All32(exc[..])
    modifies exc, decoded
    ensures InSignalUnits(decoded[..nsf], cb.Excitation(sent))
    ensures exc[..nsf] == decoded[..nsf] <==> forall n :: 0 <= n < nsf ==> old(exc[n]) == 0
    ensures exc[nsf..] == old(exc[nsf..]) && decoded[nsf..] == old(decoded[nsf..])
  {
    ghost var before := exc[..nsf];
    assert cb.shapeBits <= 32 && All32(before);
    hide *;
    ghost var e := AddExcitation(cb, sent, exc);
    ghost var after := exc[..nsf];
    var bits := PackRewound(cb, sent);
    ghost var read := StoreUnquantized(decoded, cb, nsf, bits);
    DecoderAgrees(cb, sent, read, IndexBits(cb, sent));
    SameUnits(e, decoded[..nsf], cb.Excitation(sent));
    SumsAreExcitation(before, e, after, cb.Excitation(sent));
  }

  lemma SumsAreExcitation(before: seq<int>, e: seq<int>, after: seq<int>, x: Signal)
    requires InSignalUnits(e, x) && |before| == |x| == |after| && All32(before)
    requires forall n :: 0 <= n < |e| ==> after[n] == Wrap32(before[n] + e[n])
    ensures after == e <==> forall n :: 0 <= n < |e| ==> before[n] == 0
  {
    hide Wrap32;
    forall n | 0 <= n < |e|
      ensures after[n] == e[n] <==> before[n] == 0
    {
      SumIsExcitation(before[n], e[n]);
    }
  }
}
