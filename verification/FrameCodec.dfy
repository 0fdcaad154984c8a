/** The bit-level skeletons of nb_encode, sb_encode and their decoders: every pack and unpack in the order of the code.
    What the analysis decides (pitch, gains, indices) is an input of the encoder. */
module FrameCodec {
  import opened BitFields
  import opened BitStream
  import opened ByteBits
  import opened FrameChoices
  import opened FrameLayout
  import opened FrameSyntax
  import opened Remainders

  // ----- packing -----

  /** Append one field. */
  method PackField(bits: SpeexBits, v: int, width: nat)
    requires bits.Writing() && bits.owner && width <= 32
    modifies bits, bits.chars
    ensures bits.Writing() && bits.owner && (bits.chars == old(bits.chars) || fresh(bits.chars))
    ensures bits.Contents() == old(bits.Contents()) + Field(v, width)
  {
    hide Bits, Clear, Field;
    bits.Pack(v, width);
  }

  /** Append fields of the same width. */
  method PackRun(bits: SpeexBits, vs: seq<nat>, width: nat)
    requires bits.Writing() && bits.owner && width <= 32
    modifies bits, bits.chars
    ensures bits.Writing() && bits.owner && (bits.chars == old(bits.chars) || fresh(bits.chars))
    ensures bits.Contents() == old(bits.Contents()) + RunBits(vs, width)
  {
    hide Bits, Clear, Field;
    ghost var before := bits.Contents();
    assert RunBits(vs[..0], width) == [];
    for i := 0 to |vs|
      invariant bits.Writing() && bits.owner && (bits.chars == old(bits.chars) || fresh(bits.chars))
      invariant bits.Contents() == before + RunBits(vs[..i], width)
    {
      RunStep(vs, width, i);
      hide RunBits;
      PackField(bits, vs[i], width);
    }
    assert vs[..|vs|] == vs;
  }

  /** pitch_search_3tap, or forced_pitch_quant, which packs nothing: the lag and the index of the gains, or zeros when
      the range is empty. */
  method PackPitch(bits: SpeexBits, ltp: Ltp, start: int, end: int, bestPitch: int, gainIndex: nat)
    returns (ghost run: seq<bool>)
    requires bits.Writing() && bits.owner && (ltp.ThreeTap? ==> ltp.pitchBits <= 32 && ltp.gainBits <= 32)
    modifies bits, bits.chars
    ensures bits.Writing() && bits.owner && (bits.chars == old(bits.chars) || fresh(bits.chars))
    ensures bits.Contents() == old(bits.Contents()) + run
    ensures ltp.Forced? ==> run == []
    ensures ltp.ThreeTap? && start <= end ==>
      run == Field(bestPitch - start, ltp.pitchBits) + Field(gainIndex, ltp.gainBits)
    ensures ltp.ThreeTap? && end < start ==> run == Field(0, ltp.pitchBits) + Field(0, ltp.gainBits)
  {
    hide Bits, Clear, Field;
    run := [];
    match ltp
    case Forced =>
    case ThreeTap(pitchBits, gainBits) =>
      if end < start {
        PackField(bits, 0, pitchBits);
        PackField(bits, 0, gainBits);
        run := Field(0, pitchBits) + Field(0, gainBits);
        return;
      }
      PackField(bits, bestPitch - start, pitchBits);
      PackField(bits, gainIndex, gainBits);
      run := Field(bestPitch - start, pitchBits) + Field(gainIndex, gainBits);
  }

  /** split_cb_search_shape_sign, once or twice; noise_codebook_quant packs nothing. */
  method PackInnovation(bits: SpeexBits, inn: Innovation, twice: bool, codes: seq<nat>, codes2: seq<nat>)
    requires bits.Writing() && bits.owner && IndexWidth(inn) <= 32
    requires |codes| == IndexCount(inn) && |codes2| == if twice then IndexCount(inn) else 0
    modifies bits, bits.chars
    ensures bits.Writing() && bits.owner && (bits.chars == old(bits.chars) || fresh(bits.chars))
    ensures bits.Contents()
      == old(bits.Contents()) + (RunBits(codes, IndexWidth(inn)) + RunBits(codes2, IndexWidth(inn)))
  {
    hide Bits, Clear, RunBits;
    NoRun(codes, IndexWidth(inn));
    NoRun(codes2, IndexWidth(inn));
    if inn.Split? {
      PackRun(bits, codes, IndexWidth(inn));
      if twice {
        PackRun(bits, codes2, IndexWidth(inn));
      }
    }
  }

  lemma NoRun(vs: seq<nat>, width: nat)
    ensures vs == [] ==> RunBits(vs, width) == []
  {}

  /** The gain correction: three bits, one, or none. */
  method PackGain(bits: SpeexBits, have: nat, gain: nat)
    requires bits.Writing() && bits.owner && (have == 0 || have == 1 || have == 3)
    modifies bits, bits.chars
    ensures bits.Writing() && bits.owner && (bits.chars == old(bits.chars) || fresh(bits.chars))
    ensures bits.Contents() == old(bits.Contents()) + Field(gain, have)
  {
    assert Field(gain, 0) == [];
    hide Bits, Clear, Field;
    if have != 0 {
      if have == 3 {
        PackField(bits, gain, 3);
      } else {
        PackField(bits, gain, 1);
      }
    }
  }

  /** One subframe of nb_encode. */
  method EncodeSubframe(bits: SpeexBits, a: Analysis, sub: nat)
    requires bits.Writing() && bits.owner && a.Ok() && a.Speech? && sub < NB_SUBFRAMES
    modifies bits, bits.chars
    ensures bits.Writing() && bits.owner && (bits.chars == old(bits.chars) || fresh(bits.chars))
    ensures a.SubOk(sub) && SubMeans(a.SentSubframe(sub), a.subs[sub], Searched(a, sub), FirstLag(a))
    ensures bits.Contents() == old(bits.Contents()) + SubframeBits(NbLayout(a.Mode()), a.SentSubframe(sub))
  {
    var sm, s := a.Mode(), a.subs[sub];
    SubSentMeans(a, sub);
    ModeShape(a.id);
    SentSizes(a, sub);
    hide Bits, Clear, Field, RunBits, NbSubmode, Analysis.SubOk, Analysis.PitchEnd, Analysis.PitchStart, SubMeans;
    hide InWidth, AllInWidth, SubframeBits, Analysis.SentSubframe, IndexWidth, IndexCount, Analysis.Ok, Searched;
    hide NbLayout, FirstLag;
    ghost var before := bits.Contents();
    ghost var run := PackPitch(bits, sm.ltp, a.PitchStart(), a.PitchEnd(sub), s.bestPitch, s.gainIndex);
    SentIs(a, sub, run);
    PackGain(bits, sm.haveSubframeGain, s.gain);
    PackInnovation(bits, sm.innovation, sm.doubleCodebook, s.codes, s.codes2);
    Gather3(before, run, Field(s.gain, sm.haveSubframeGain),
            RunBits(s.codes, IndexWidth(sm.innovation)) + RunBits(s.codes2, IndexWidth(sm.innovation)));
  }

  lemma Gather3(before: seq<bool>, a: seq<bool>, b: seq<bool>, c: seq<bool>)
    ensures ((before + a) + b) + c == before + (a + (b + c))
  {}

  lemma ModeShape(id: nat)
    requires 1 <= id <= 8
    ensures var sm := NbSubmode(id);
      && (sm.haveSubframeGain == 0 || sm.haveSubframeGain == 1 || sm.haveSubframeGain == 3)
      && IndexWidth(sm.innovation) <= 32 && (sm.ltp.ThreeTap? ==> sm.ltp.pitchBits <= 32 && sm.ltp.gainBits <= 32)
      && (sm.lspIndices == 3 || sm.lspIndices == 5)
  {}

  lemma SentSizes(a: Analysis, sub: nat)
    requires a.Ok() && a.Speech? && sub < NB_SUBFRAMES && a.SubOk(sub)
    ensures var sm, s := a.Mode(), a.subs[sub];
      && |s.codes| == IndexCount(sm.innovation)
      && |s.codes2| == if sm.doubleCodebook then IndexCount(sm.innovation) else 0
  {
    hide NbSubmode, InWidth, AllInWidth, Analysis.PitchEnd, Analysis.PitchStart;
  }

  /** The bits of the subframe sent, in the pieces the code packs. */
  lemma SentIs(a: Analysis, sub: nat, run: seq<bool>)
    requires a.Ok() && a.Speech? && sub < NB_SUBFRAMES && a.SubOk(sub)
    requires var sm, s := a.Mode(), a.subs[sub];
      && (sm.ltp.Forced? ==> run == [])
      && (sm.ltp.ThreeTap? && a.PitchStart() <= a.PitchEnd(sub) ==>
          run == Field(s.bestPitch - a.PitchStart(), sm.ltp.pitchBits) + Field(s.gainIndex, sm.ltp.gainBits))
      && (sm.ltp.ThreeTap? && a.PitchEnd(sub) < a.PitchStart() ==>
          run == Field(0, sm.ltp.pitchBits) + Field(0, sm.ltp.gainBits))
    ensures var sm, s := a.Mode(), a.subs[sub];
      SubframeBits(NbLayout(sm), a.SentSubframe(sub)) == run + (Field(s.gain, sm.haveSubframeGain)
          + (RunBits(s.codes, IndexWidth(sm.innovation)) + RunBits(s.codes2, IndexWidth(sm.innovation))))
  {
    var sm, t := a.Mode(), a.SentSubframe(sub);
    var l := NbLayout(sm);
    ZeroField();
    hide Field, RunBits, NbSubmode, InWidth, AllInWidth, Analysis.PitchEnd, Analysis.PitchStart;
    hide Analysis.SubOk, Analysis.Ok;
    assert Field(t.pitch, l.pitchBits) + Field(t.pitchGain, l.pitchGainBits) == run;
    Gather2(Field(t.pitch, l.pitchBits), Field(t.pitchGain, l.pitchGainBits), Field(t.gain, l.gainBits)
      + (RunBits(t.codes, l.indexBits) + RunBits(t.codes2, l.indexBits)));
  }

  lemma Gather2(a: seq<bool>, b: seq<bool>, c: seq<bool>)
    ensures (a + b) + c == a + (b + c)
  {}

  /** The LSP indices, open-loop pitch, forced gain and excitation gain of nb_encode. */
  method EncodeHead(bits: SpeexBits, a: Analysis)
    requires bits.Writing() && bits.owner && a.Ok() && a.Speech?
    modifies bits, bits.chars
    ensures bits.Writing() && bits.owner && (bits.chars == old(bits.chars) || fresh(bits.chars))
    ensures bits.Contents() == old(bits.Contents())
      + (RunBits(a.lsp, LSP_INDEX_BITS) + (Field(OlPitchSent(a), OlPitchBits(a.id))
          + (Field(a.pitchCoef, PitchCoefBits(a.id)) + Field(a.olGain, 5))))
  {
    hide Bits, Clear, RunBits, NbSubmode, InWidth, AllInWidth;
    ghost var before := bits.Contents();
    ghost var p, c := Field(OlPitchSent(a), OlPitchBits(a.id)), Field(a.pitchCoef, PitchCoefBits(a.id));
    PackRun(bits, a.lsp, LSP_INDEX_BITS);
    if a.Mode().lbrPitch != -1 {
      PackField(bits, a.olPitch - MIN_PITCH, 7);
    }
    assert bits.Contents() == before + RunBits(a.lsp, LSP_INDEX_BITS) + p;
    if a.Mode().forcedPitchGain {
      PackField(bits, a.pitchCoef, 4);
    }
    assert bits.Contents() == before + RunBits(a.lsp, LSP_INDEX_BITS) + p + c;
    hide Field, Analysis.Ok;
    PackField(bits, a.olGain, 5);
    Gather4(before, RunBits(a.lsp, LSP_INDEX_BITS), p, c, Field(a.olGain, 5));
  }

  function OlPitchSent(a: Analysis): (v: nat)
    requires a.Ok() && a.Speech?
  {
    if a.Mode().lbrPitch != -1 then a.olPitch - MIN_PITCH else 0
  }

  lemma Gather4(before: seq<bool>, a: seq<bool>, b: seq<bool>, c: seq<bool>, d: seq<bool>)
    ensures (((before + a) + b) + c) + d == before + (a + (b + (c + d)))
  {}

  method EncodeSubframes(bits: SpeexBits, a: Analysis)
    requires bits.Writing() && bits.owner && a.Ok() && a.Speech?
    modifies bits, bits.chars
    ensures bits.Writing() && bits.owner && (bits.chars == old(bits.chars) || fresh(bits.chars))
    ensures forall i :: 0 <= i < NB_SUBFRAMES ==> a.SubOk(i)
    ensures bits.Contents() == old(bits.Contents()) + SubframesBits(NbLayout(a.Mode()), a.SentSubframes(NB_SUBFRAMES))
  {
    hide Bits, Clear, NbSubmode, Analysis.SubOk, Analysis.SentSubframe, SubframeBits, NbLayout;
    ghost var before, l := bits.Contents(), NbLayout(a.Mode());
    assert SubframesBits(l, a.SentSubframes(0)) == [];
    for sub := 0 to NB_SUBFRAMES
      invariant bits.Writing() && bits.owner && (bits.chars == old(bits.chars) || fresh(bits.chars))
      invariant bits.Contents() == before + SubframesBits(l, a.SentSubframes(sub))
    {
      EncodeSubframe(bits, a, sub);
      assert a.SentSubframes(sub + 1)[..sub] == a.SentSubframes(sub);
      Gather2(before, SubframesBits(l, a.SentSubframes(sub)), SubframeBits(l, a.SentSubframe(sub)));
    }
  }

  /** nb_encode: what it packs is the frame its choices turn into, every choice in its place.  In particular a subframe
      whose pitch was looked for holds the lag, counted from the first of the range, and right behind it the index of
      the gains. */
  method NbEncode(bits: SpeexBits, a: Analysis) returns (ghost frame: seq<bool>)
    requires bits.Writing() && bits.owner && a.Ok()
    modifies bits, bits.chars
    ensures bits.Writing() && bits.owner && (bits.chars == old(bits.chars) || fresh(bits.chars))
    ensures bits.Contents() == old(bits.Contents()) + frame
    ensures NbOk(a.Sent()) && frame == NbBits(a.Sent()) && Placed(frame, a)
    ensures a.Speech? && 2 <= a.id <= 7 ==> forall sub :: 0 <= sub < 4 ==>
      var p, first := NbPlaces(a.id), if a.id == 2 then a.olPitch else 17;
      var at := p.start + sub * p.width;
      (a.bounded ==> first <= 40 * sub) ==>
        && Holds(frame, at, Field(a.subs[sub].bestPitch - first, p.pitch))
        && Holds(frame, at + p.pitch, Field(a.subs[sub].gainIndex, p.pitchGain))
  {
    ghost var before, f := bits.Contents(), a.Sent();
    SentPlaced(a);
    frame := NbBits(f);
    PitchPlaced(frame, a);
    var id := if a.Speech? then a.id else 0;
    assert id == NbId(f);
    hide Bits, Clear, Field, NbTail, Analysis.Sent, Analysis.Ok, NbOk, Placed, NbPlaces, Holds;
    PackField(bits, 0, 1);
    PackField(bits, id, NB_SUBMODE_BITS);
    SentTail(a);
    if a.Speech? {
      EncodeBody(bits, a);
    }
    Gather3(before, Field(0, 1), Field(NbId(f), NB_SUBMODE_BITS), NbTail(f));
  }

  lemma PitchPlaced(frame: seq<bool>, a: Analysis)
    requires a.Ok() && Placed(frame, a)
    ensures a.Speech? && 2 <= a.id <= 7 ==> forall sub :: 0 <= sub < 4 ==>
      var p, first := NbPlaces(a.id), if a.id == 2 then a.olPitch else 17;
      var at := p.start + sub * p.width;
      (a.bounded ==> first <= 40 * sub) ==>
        && Holds(frame, at, Field(a.subs[sub].bestPitch - first, p.pitch))
        && Holds(frame, at + p.pitch, Field(a.subs[sub].gainIndex, p.pitchGain))
  {
    hide Field, Holds, Analysis.Ok, HeadPlaced, NbPlaces;
  }

  lemma SentTail(a: Analysis)
    requires a.Ok() && NbOk(a.Sent())
    ensures NbTail(a.Sent()) == if a.Speech? then NbBody(a.Sent()) else []
  {}

  method EncodeBody(bits: SpeexBits, a: Analysis)
    requires bits.Writing() && bits.owner && a.Ok() && a.Speech?
    modifies bits, bits.chars
    ensures bits.Writing() && bits.owner && (bits.chars == old(bits.chars) || fresh(bits.chars))
    ensures bits.Contents() == old(bits.Contents()) + NbBody(a.Sent())
  {
    hide Bits, Clear, RunBits, NbSubmode, InWidth, AllInWidth, SubframesBits, Analysis.SentSubframes;
    ghost var before := bits.Contents();
    EncodeHead(bits, a);
    EncodeSubframes(bits, a);
    ghost var e := Field(a.Sent().extra, ExtraBits(a.id));
    ghost var ss := SubframesBits(NbLayout(a.Mode()), a.SentSubframes(NB_SUBFRAMES));
    ghost var mid := bits.Contents();
    if a.id == 1 {
      if a.dtxCount > 0 {
        PackField(bits, 15, 4);
      } else {
        PackField(bits, 0, 4);
      }
    }
    assert bits.Contents() == mid + e;
    hide Field;
    Gather6(before, RunBits(a.lsp, LSP_INDEX_BITS), Field(OlPitchSent(a), OlPitchBits(a.id)),
            Field(a.pitchCoef, PitchCoefBits(a.id)), Field(a.olGain, 5), ss, e);
  }

  lemma Gather6(before: seq<bool>, a: seq<bool>, b: seq<bool>, c: seq<bool>, d: seq<bool>, s: seq<bool>, e: seq<bool>)
    ensures ((before + (a + (b + (c + d)))) + s) + e == before + (a + (b + (c + (d + (s + e)))))
  {}

  // ----- a high-band layer -----

  /** The bits of a subframe without pitch. */
  lemma HighSubframe(id: nat, s: Subframe)
    requires 1 <= id <= 4 && SubframeOk(HbLayout(WbSubmode(id)), s)
    ensures var sm := WbSubmode(id);
      && IndexWidth(sm.innovation) <= 32
      && |s.codes| == IndexCount(sm.innovation)
      && |s.codes2| == (if sm.doubleCodebook then IndexCount(sm.innovation) else 0)
      && SubframeBits(HbLayout(sm), s) == Field(s.gain, if sm.innovation.Split? then 4 else 5)
          + (RunBits(s.codes, IndexWidth(sm.innovation)) + RunBits(s.codes2, IndexWidth(sm.innovation)))
  {
    assert Field(s.pitch, 0) == [] && Field(s.pitchGain, 0) == [];
    hide Field, RunBits, InWidth, AllInWidth;
  }

  method EncodeLayerSubframe(bits: SpeexBits, id: nat, s: Subframe)
    requires bits.Writing() && bits.owner && 1 <= id <= 4 && SubframeOk(HbLayout(WbSubmode(id)), s)
    modifies bits, bits.chars
    ensures bits.Writing() && bits.owner && (bits.chars == old(bits.chars) || fresh(bits.chars))
    ensures bits.Contents() == old(bits.Contents()) + SubframeBits(HbLayout(WbSubmode(id)), s)
  {
    hide Bits, Clear, Field, RunBits, WbSubmode, HbLayout, SubframeBits, SubframeOk, IndexWidth, IndexCount;
    var sm := WbSubmode(id);
    HighSubframe(id, s);
    ghost var before := bits.Contents();
    if !sm.innovation.Split? {
      PackField(bits, s.gain, 5);
    } else {
      PackField(bits, s.gain, 4);
    }
    PackInnovation(bits, sm.innovation, sm.doubleCodebook, s.codes, s.codes2);
    Gather2(before, Field(s.gain, if sm.innovation.Split? then 4 else 5),
            RunBits(s.codes, IndexWidth(sm.innovation)) + RunBits(s.codes2, IndexWidth(sm.innovation)));
  }

  method EncodeLayerSubframes(bits: SpeexBits, id: nat, ss: seq<Subframe>)
    requires bits.Writing() && bits.owner && 1 <= id <= 4 && SubframesOk(HbLayout(WbSubmode(id)), ss)
    modifies bits, bits.chars
    ensures bits.Writing() && bits.owner && (bits.chars == old(bits.chars) || fresh(bits.chars))
    ensures bits.Contents() == old(bits.Contents()) + SubframesBits(HbLayout(WbSubmode(id)), ss)
  {
    hide Bits, Clear, WbSubmode, HbLayout, SubframeBits, SubframeOk;
    ghost var before, l := bits.Contents(), HbLayout(WbSubmode(id));
    assert SubframesBits(l, ss[..0]) == [];
    for sub := 0 to |ss|
      invariant bits.Writing() && bits.owner && (bits.chars == old(bits.chars) || fresh(bits.chars))
      invariant bits.Contents() == before + SubframesBits(l, ss[..sub])
    {
      EncodeLayerSubframe(bits, id, ss[sub]);
      assert ss[..sub + 1][..sub] == ss[..sub];
      Gather2(before, SubframesBits(l, ss[..sub]), SubframeBits(l, ss[sub]));
    }
    assert ss[..|ss|] == ss;
  }

  /** The layer sb_encode writes after the low band, every field in its place; dtx makes it a null layer. */
  method SbEncode(bits: SpeexBits, f: Layer)
    requires bits.Writing() && bits.owner && LayerOk(f)
    modifies bits, bits.chars
    ensures bits.Writing() && bits.owner && (bits.chars == old(bits.chars) || fresh(bits.chars))
    ensures bits.Contents() == old(bits.Contents()) + LayerBits(f) && LayerPlaced(LayerBits(f), f)
  {
    LayerStands(f);
    hide LayerPlaced;
    hide Bits, Clear, Field, RunBits, SubframesBits, SubframesOk, HbLayout, WbSubmode, AllInWidth;
    ghost var before := bits.Contents();
    PackField(bits, 1, 1);
    PackField(bits, LayerId(f), SB_SUBMODE_BITS);
    if f.Layer? {
      ghost var mid := bits.Contents();
      PackRun(bits, f.lsp, LSP_INDEX_BITS);
      EncodeLayerSubframes(bits, f.id, f.subframes);
      Gather2(mid, RunBits(f.lsp, LSP_INDEX_BITS), SubframesBits(HbLayout(WbSubmode(f.id)), f.subframes));
    }
    Gather3(before, Field(1, 1), Field(LayerId(f), SB_SUBMODE_BITS), LayerTail(f));
  }

  // ----- unpacking -----

  /** Take one field: whatever comes back, it is what the stream said, unless the stream ran out. */
  method TakeField(bits: SpeexBits, width: nat) returns (v: nat)
    requires bits.Valid() && width <= 32
    modifies bits
    ensures bits.Valid() && bits.chars == old(bits.chars) && bits.Contents() == old(bits.Contents())
    ensures InWidth(v, width)
    ensures !old(bits.overflow) && |old(bits.Unread())| >= width ==> !bits.overflow
    ensures !bits.overflow ==> !old(bits.overflow) && old(bits.Unread()) == Field(v, width) + bits.Unread()
  {
    hide Bits, Field, Value, Pow2;
    ghost var rest, at := bits.Unread(), bits.Pos();
    v := bits.UnpackUnsigned(width);
    if !bits.overflow {
      FieldOfValue(rest[..width]);
      assert bits.Contents()[at..at + width] == rest[..width];
      assert rest[..width] + rest[width..] == rest;
    }
  }

  method TakeRun(bits: SpeexBits, n: nat, width: nat) returns (vs: seq<nat>)
    requires bits.Valid() && width <= 32
    modifies bits
    ensures bits.Valid() && bits.chars == old(bits.chars) && bits.Contents() == old(bits.Contents())
    ensures |vs| == n && AllInWidth(vs, width)
    ensures !old(bits.overflow) && |old(bits.Unread())| >= n * width ==> !bits.overflow
    ensures !bits.overflow ==> !old(bits.overflow) && old(bits.Unread()) == RunBits(vs, width) + bits.Unread()
  {
    hide Bits, Field, InWidth;
    ghost var rest := bits.Unread();
    vs := [];
    NoRun([], width);
    for i := 0 to n
      invariant bits.Valid() && bits.chars == old(bits.chars) && bits.Contents() == old(bits.Contents())
      invariant |vs| == i && AllInWidth(vs, width)
      invariant !old(bits.overflow) && |rest| >= n * width ==> !bits.overflow
      invariant !bits.overflow ==> !old(bits.overflow) && rest == RunBits(vs, width) + bits.Unread()
    {
      BlockBound(i, n, width);
      BlockFits(i, width);
      var v := TakeField(bits, width);
      RunStep(vs + [v], width, i);
      assert (vs + [v])[..i] == vs && (vs + [v])[..i + 1] == vs + [v];
      Gather2(RunBits(vs, width), Field(v, width), bits.Unread());
      vs := vs + [v];
    }
  }

  function TapBits(ltp: Ltp): nat { if ltp.ThreeTap? then ltp.pitchBits else 0 }

  function TapGainBits(ltp: Ltp): nat { if ltp.ThreeTap? then ltp.gainBits else 0 }

  lemma ZeroField()
    ensures Field(0, 0) == [] && InWidth(0, 0)
    ensures forall width :: AllInWidth([], width) && RunBits([], width) == []
  {}

  /** pitch_unquant_3tap, or forced_pitch_unquant, which reads nothing. */
  method UnpackPitch(bits: SpeexBits, ltp: Ltp) returns (pitch: nat, gainIndex: nat)
    requires bits.Valid() && TapBits(ltp) <= 32 && TapGainBits(ltp) <= 32
    modifies bits
    ensures bits.Valid() && bits.chars == old(bits.chars) && bits.Contents() == old(bits.Contents())
    ensures InWidth(pitch, TapBits(ltp)) && InWidth(gainIndex, TapGainBits(ltp))
    ensures !old(bits.overflow) && |old(bits.Unread())| >= TapBits(ltp) + TapGainBits(ltp) ==> !bits.overflow
    ensures !bits.overflow ==> !old(bits.overflow)
    ensures !bits.overflow ==>
      old(bits.Unread()) == Field(pitch, TapBits(ltp)) + (Field(gainIndex, TapGainBits(ltp)) + bits.Unread())
  {
    ZeroField();
    hide Bits, Field, InWidth;
    match ltp
    case Forced =>
      pitch, gainIndex := 0, 0;
    case ThreeTap(pitchBits, gainBits) =>
      pitch := TakeField(bits, pitchBits);
      gainIndex := TakeField(bits, gainBits);
  }

  method UnpackGain(bits: SpeexBits, have: nat) returns (gain: nat)
    requires bits.Valid() && (have == 0 || have == 1 || have == 3)
    modifies bits
    ensures bits.Valid() && bits.chars == old(bits.chars) && bits.Contents() == old(bits.Contents())
    ensures InWidth(gain, have)
    ensures !old(bits.overflow) && |old(bits.Unread())| >= have ==> !bits.overflow
    ensures !bits.overflow ==> !old(bits.overflow) && old(bits.Unread()) == Field(gain, have) + bits.Unread()
  {
    ZeroField();
    hide Bits, Field, InWidth;
    if have == 3 {
      gain := TakeField(bits, 3);
    } else if have == 1 {
      gain := TakeField(bits, 1);
    } else {
      gain := 0;
    }
  }

  /** split_cb_shape_sign_unquant, once or twice; noise_codebook_unquant reads nothing. */
  method UnpackInnovation(bits: SpeexBits, inn: Innovation, twice: bool) returns (codes: seq<nat>, codes2: seq<nat>)
    requires bits.Valid() && IndexWidth(inn) <= 32
    modifies bits
    ensures bits.Valid() && bits.chars == old(bits.chars) && bits.Contents() == old(bits.Contents())
    ensures |codes| == IndexCount(inn) && AllInWidth(codes, IndexWidth(inn))
    ensures |codes2| == (if twice then IndexCount(inn) else 0) && AllInWidth(codes2, IndexWidth(inn))
    ensures !old(bits.overflow) && |old(bits.Unread())| >= |codes| * IndexWidth(inn) + |codes2| * IndexWidth(inn) ==>
      !bits.overflow
    ensures !bits.overflow ==> !old(bits.overflow)
    ensures !bits.overflow ==>
      old(bits.Unread()) == RunBits(codes, IndexWidth(inn)) + (RunBits(codes2, IndexWidth(inn)) + bits.Unread())
  {
    ZeroField();
    hide Bits, RunBits, AllInWidth;
    codes, codes2 := [], [];
    if inn.Split? {
      codes := TakeRun(bits, inn.nbSubvect, IndexWidth(inn));
      if twice {
        codes2 := TakeRun(bits, inn.nbSubvect, IndexWidth(inn));
      }
    }
  }

  lemma Spread5(a: seq<bool>, b: seq<bool>, c: seq<bool>, d: seq<bool>, e: seq<bool>, x: seq<bool>)
    ensures a + (b + (c + (d + (e + x)))) == (a + (b + (c + (d + e)))) + x
  {}

  /** One subframe of nb_decode. */
  method DecodeSubframe(bits: SpeexBits, id: nat) returns (s: Subframe)
    requires bits.Valid() && 1 <= id <= 8
    modifies bits
    ensures bits.Valid() && bits.chars == old(bits.chars) && bits.Contents() == old(bits.Contents())
    ensures SubframeOk(NbLayout(NbSubmode(id)), s)
    ensures !old(bits.overflow) && |old(bits.Unread())| >= NbLayout(NbSubmode(id)).Width() ==> !bits.overflow
    ensures !bits.overflow ==> !old(bits.overflow)
    ensures !bits.overflow ==> old(bits.Unread()) == SubframeBits(NbLayout(NbSubmode(id)), s) + bits.Unread()
  {
    ModeShape(id);
    hide Bits, Field, InWidth, AllInWidth, RunBits, NbSubmode, IndexWidth, IndexCount;
    var sm := NbSubmode(id);
    var pitch, pitchGain := UnpackPitch(bits, sm.ltp);
    var gain := UnpackGain(bits, sm.haveSubframeGain);
    var codes, codes2 := UnpackInnovation(bits, sm.innovation, sm.doubleCodebook);
    s := Subframe(pitch, pitchGain, gain, codes, codes2);
    Spread5(Field(pitch, TapBits(sm.ltp)), Field(pitchGain, TapGainBits(sm.ltp)), Field(gain, sm.haveSubframeGain),
            RunBits(codes, IndexWidth(sm.innovation)), RunBits(codes2, IndexWidth(sm.innovation)), bits.Unread());
  }

  /** One subframe of sb_decode. */
  method DecodeLayerSubframe(bits: SpeexBits, id: nat) returns (s: Subframe)
    requires bits.Valid() && 1 <= id <= 4
    modifies bits
    ensures bits.Valid() && bits.chars == old(bits.chars) && bits.Contents() == old(bits.Contents())
    ensures SubframeOk(HbLayout(WbSubmode(id)), s)
    ensures !old(bits.overflow) && |old(bits.Unread())| >= HbLayout(WbSubmode(id)).Width() ==> !bits.overflow
    ensures !bits.overflow ==> !old(bits.overflow)
    ensures !bits.overflow ==> old(bits.Unread()) == SubframeBits(HbLayout(WbSubmode(id)), s) + bits.Unread()
  {
    HighShape(id);
    hide Bits, Field, InWidth, AllInWidth, RunBits, WbSubmode, HbLayout, SubframeBits, SubframeOk, IndexWidth;
    hide IndexCount, SubLayout.Width;
    var sm := WbSubmode(id);
    var gain;
    if !sm.innovation.Split? {
      gain := TakeField(bits, 5);
    } else {
      gain := TakeField(bits, 4);
    }
    var codes, codes2 := UnpackInnovation(bits, sm.innovation, sm.doubleCodebook);
    s := Subframe(0, 0, gain, codes, codes2);
    HighRead(id, s);
    HighSubframe(id, s);
    Spread3(Field(gain, if sm.innovation.Split? then 4 else 5),
            RunBits(codes, IndexWidth(sm.innovation)), RunBits(codes2, IndexWidth(sm.innovation)), bits.Unread());
  }

  lemma Spread3(a: seq<bool>, b: seq<bool>, c: seq<bool>, x: seq<bool>)
    ensures a + (b + (c + x)) == (a + (b + c)) + x
  {}

  lemma HighRead(id: nat, s: Subframe)
    requires 1 <= id <= 4 && s.pitch == s.pitchGain == 0
    requires var inn := WbSubmode(id).innovation;
      && InWidth(s.gain, if inn.Split? then 4 else 5)
      && |s.codes| == IndexCount(inn) && AllInWidth(s.codes, IndexWidth(inn))
      && |s.codes2| == (if WbSubmode(id).doubleCodebook then IndexCount(inn) else 0)
      && AllInWidth(s.codes2, IndexWidth(inn))
    ensures SubframeOk(HbLayout(WbSubmode(id)), s)
    ensures HbLayout(WbSubmode(id)).Width() == (if WbSubmode(id).innovation.Split? then 4 else 5)
      + |s.codes| * IndexWidth(WbSubmode(id).innovation) + |s.codes2| * IndexWidth(WbSubmode(id).innovation)
  {
    ZeroField();
    hide Field, AllInWidth, RunBits, WbSubmode, IndexWidth, IndexCount;
  }

  lemma HighShape(id: nat)
    requires 1 <= id <= 4
    ensures IndexWidth(WbSubmode(id).innovation) <= 32
  {}

  method DecodeSubframes(bits: SpeexBits, id: nat, high: bool) returns (ss: seq<Subframe>)
    requires bits.Valid() && 1 <= id <= (if high then 4 else 8)
    modifies bits
    ensures bits.Valid() && bits.chars == old(bits.chars) && bits.Contents() == old(bits.Contents())
    ensures |ss| == NB_SUBFRAMES && SubframesOk(LayoutOf(id, high), ss)
    ensures !old(bits.overflow) && |old(bits.Unread())| >= NB_SUBFRAMES * LayoutOf(id, high).Width() ==> !bits.overflow
    ensures !bits.overflow ==>
      !old(bits.overflow) && old(bits.Unread()) == SubframesBits(LayoutOf(id, high), ss) + bits.Unread()
  {
    hide Bits, SubframeOk, SubframeBits, NbLayout, HbLayout, NbSubmode, WbSubmode;
    ghost var rest, l := bits.Unread(), LayoutOf(id, high);
    ss := [];
    assert SubframesBits(l, []) == [];
    for i := 0 to NB_SUBFRAMES
      invariant bits.Valid() && bits.chars == old(bits.chars) && bits.Contents() == old(bits.Contents())
      invariant |ss| == i && SubframesOk(l, ss)
      invariant !old(bits.overflow) && |rest| >= NB_SUBFRAMES * l.Width() ==> !bits.overflow
      invariant !bits.overflow ==> !old(bits.overflow) && rest == SubframesBits(l, ss) + bits.Unread()
    {
      SubframesLength(l, ss);
      BlockBound(i, NB_SUBFRAMES, l.Width());
      BlockFits(i, l.Width());
      var s;
      if high {
        s := DecodeLayerSubframe(bits, id);
      } else {
        s := DecodeSubframe(bits, id);
      }
      assert (ss + [s])[..i] == ss;
      Gather2(SubframesBits(l, ss), SubframeBits(l, s), bits.Unread());
      ss := ss + [s];
    }
  }

  function LayoutOf(id: nat, high: bool): SubLayout
    requires 1 <= id <= (if high then 4 else 8)
  {
    if high then HbLayout(WbSubmode(id)) else NbLayout(NbSubmode(id))
  }

  /** A field the sub-mode may leave out. */
  method TakeIf(bits: SpeexBits, present: bool, width: nat) returns (v: nat)
    requires bits.Valid() && width <= 32
    modifies bits
    ensures bits.Valid() && bits.chars == old(bits.chars) && bits.Contents() == old(bits.Contents())
    ensures InWidth(v, if present then width else 0)
    ensures !old(bits.overflow) && |old(bits.Unread())| >= (if present then width else 0) ==> !bits.overflow
    ensures !bits.overflow ==> !old(bits.overflow)
    ensures !bits.overflow ==> old(bits.Unread()) == Field(v, if present then width else 0) + bits.Unread()
  {
    ZeroField();
    hide Bits, Field, InWidth;
    v := 0;
    if present {
      v := TakeField(bits, width);
    }
  }

  /** nb_decode after the sub-mode number is known. */
  method DecodeBody(bits: SpeexBits, id: nat) returns (f: NbFrame)
    requires bits.Valid() && 1 <= id <= 8
    modifies bits
    ensures bits.Valid() && bits.chars == old(bits.chars) && bits.Contents() == old(bits.Contents())
    ensures f.Coded? && f.id == id && NbOk(f)
    ensures !old(bits.overflow) && |old(bits.Unread())| >= NbSubmode(id).bitsPerFrame - 5 ==> !bits.overflow
    ensures !bits.overflow ==> !old(bits.overflow) && old(bits.Unread()) == NbBody(f) + bits.Unread()
  {
    hide Bits, Field, InWidth, AllInWidth, RunBits, SubframesBits, SubframesOk, NbLayout, NbSubmode;
    ModeShape(id);
    NbTableSum(id);
    var sm := NbSubmode(id);
    var lsp := TakeRun(bits, sm.lspIndices, LSP_INDEX_BITS);
    var olPitch := TakeIf(bits, sm.lbrPitch != -1, 7);
    var pitchCoef := TakeIf(bits, sm.forcedPitchGain, 4);
    var olGain := TakeField(bits, 5);
    var extra := TakeIf(bits, id == 1, 4);
    var ss := DecodeSubframes(bits, id, false);
    f := NbFrame.Coded(id, lsp, olPitch, pitchCoef, olGain, ss, extra);
    if !bits.overflow {
      Spread6(RunBits(lsp, LSP_INDEX_BITS), Field(olPitch, OlPitchBits(id)), Field(pitchCoef, PitchCoefBits(id)),
              Field(olGain, 5), Field(extra, ExtraBits(id)), SubframesBits(NbLayout(sm), ss), bits.Unread());
      OrdersAgree(f);
    }
  }

  lemma Spread6(a: seq<bool>, b: seq<bool>, c: seq<bool>, d: seq<bool>, e: seq<bool>, s: seq<bool>, x: seq<bool>)
    ensures a + (b + (c + (d + (e + (s + x))))) == (a + (b + (c + (d + (e + s))))) + x
  {}
}
