/** Where every field of a frame stands: bit positions and widths of all sub-modes, in numbers. */
module FrameLayout {
  import opened BitFields
  import opened FrameChoices
  import opened FrameSyntax

  // ----- the places -----

  /** How a sub-mode lays out its frames: bits in all, LSP indices, the place of the first subframe and the length of
      each; and in a subframe the widths of pitch, pitch gain and gain correction, and number and width of the codebook
      indices, which may come twice. */
  datatype Places = Places(total: nat, lsps: nat, start: nat, width: nat, pitch: nat, pitchGain: nat, gain: nat,
                           count: nat, index: nat, twice: bool)

  function NbPlaces(id: nat): Places
    requires 1 <= id <= 8
  {
    if id == 1 then Places(43, 3, 39, 0, 0, 0, 0, 0, 0, false)
    else if id == 2 then Places(119, 3, 35, 21, 0, 5, 0, 4, 4, false)
    else if id == 3 then Places(160, 3, 28, 33, 7, 5, 1, 4, 5, false)
    else if id == 4 then Places(220, 3, 28, 48, 7, 5, 1, 5, 7, false)
    else if id == 5 then Places(300, 5, 40, 65, 7, 7, 3, 8, 6, false)
    else if id == 6 then Places(364, 5, 40, 81, 7, 7, 3, 8, 8, false)
    else if id == 7 then Places(492, 5, 40, 113, 7, 7, 3, 8, 6, true)
    else Places(79, 3, 39, 10, 0, 0, 0, 2, 5, false)
  }

  function LayerPlaces(id: nat): Places
    requires 1 <= id <= 4
  {
    if id == 1 then Places(36, 2, 16, 5, 0, 0, 5, 0, 0, false)
    else if id == 2 then Places(112, 2, 16, 24, 0, 0, 4, 4, 5, false)
    else if id == 3 then Places(192, 2, 16, 44, 0, 0, 4, 5, 8, false)
    else Places(352, 2, 16, 84, 0, 0, 4, 5, 8, true)
  }

  function LayoutAt(p: Places): SubLayout { SubLayout(p.pitch, p.pitchGain, p.gain, p.count, p.index, p.twice) }

  lemma NbPlacesAgree(id: nat)
    requires 1 <= id <= 8
    ensures var p, sm := NbPlaces(id), NbSubmode(id);
      && NbLayout(sm) == LayoutAt(p) && LayoutAt(p).Width() == p.width && p.total == sm.bitsPerFrame
      && p.lsps == sm.lspIndices
  {
    NbWidth(id);
    hide SubLayout.Width;
  }

  lemma HeadWidths(id: nat)
    requires 1 <= id <= 8
    ensures OlPitchBits(id) == if id == 1 || id == 2 || id == 8 then 7 else 0
    ensures PitchCoefBits(id) == if id == 1 || id == 8 then 4 else 0
    ensures NbPlaces(id).start == 5 + 6 * NbPlaces(id).lsps + OlPitchBits(id) + PitchCoefBits(id) + 5
    ensures NbSubmode(id).lbrPitch != -1 <==> id == 1 || id == 2 || id == 8
    ensures NbSubmode(id).ltp.Forced? <==> id == 1 || id == 8
  {}

  lemma LayerPlacesAgree(id: nat)
    requires 1 <= id <= 4
    ensures var p, sm := LayerPlaces(id), WbSubmode(id);
      && HbLayout(sm) == LayoutAt(p) && LayoutAt(p).Width() == p.width && p.total == sm.bitsPerFrame
      && p.lsps == sm.lspIndices && p.start == 4 + 6 * p.lsps
  {
    WbWidth(id);
    hide SubLayout.Width;
  }

  // ----- a run of bits at its place -----

  predicate Holds(bits: seq<bool>, at: int, run: seq<bool>) {
    0 <= at && at + |run| <= |bits| && bits[at..at + |run|] == run
  }

  lemma Split(bits: seq<bool>, at: int, x: seq<bool>, y: seq<bool>)
    requires Holds(bits, at, x + y)
    ensures Holds(bits, at, x) && Holds(bits, at + |x|, y)
  {
    assert bits[at..at + |x|] == bits[at..at + |x + y|][..|x|];
    assert bits[at + |x|..at + |x| + |y|] == bits[at..at + |x + y|][|x|..];
  }

  lemma RunLast(vs: seq<nat>, width: nat)
    requires vs != []
    ensures var n := |vs| - 1;
      && RunBits(vs, width) == RunBits(vs[..n], width) + Field(vs[n], width)
      && |RunBits(vs[..n], width)| == n * width
  {
    hide Field;
  }

  /** Fields of the same width stand that far apart. */
  lemma {:induction false} RunAt(bits: seq<bool>, at: int, vs: seq<nat>, width: nat)
    requires Holds(bits, at, RunBits(vs, width))
    ensures forall i :: 0 <= i < |vs| ==> Holds(bits, at + i * width, Field(vs[i], width))
  {
    if vs != [] {
      var n := |vs| - 1;
      RunLast(vs, width);
      hide RunBits, Field, Holds;
      Split(bits, at, RunBits(vs[..n], width), Field(vs[n], width));
      RunAt(bits, at, vs[..n], width);
      forall i | 0 <= i < |vs|
        ensures Holds(bits, at + i * width, Field(vs[i], width))
      {
        assert i < n ==> vs[..n][i] == vs[i];
      }
    }
  }

  /** And so do subframes. */
  lemma {:induction false} SubframesAt(bits: seq<bool>, at: int, l: SubLayout, ss: seq<Subframe>)
    requires SubframesOk(l, ss) && Holds(bits, at, SubframesBits(l, ss))
    ensures forall i :: 0 <= i < |ss| ==> Holds(bits, at + i * l.Width(), SubframeBits(l, ss[i]))
  {
    hide SubframeBits, SubframeOk, SubLayout.Width, Holds;
    if ss != [] {
      var n := |ss| - 1;
      Split(bits, at, SubframesBits(l, ss[..n]), SubframeBits(l, ss[n]));
      SubframesLength(l, ss[..n]);
      SubframesAt(bits, at, l, ss[..n]);
      hide SubframesBits;
      forall i | 0 <= i < |ss|
        ensures Holds(bits, at + i * l.Width(), SubframeBits(l, ss[i]))
      {
        assert i < n ==> ss[..n][i] == ss[i];
      }
    }
  }

  /** The fields of a subframe in their places. */
  ghost predicate SubframeStands(bits: seq<bool>, at: int, p: Places, s: Subframe) {
    && Holds(bits, at, Field(s.pitch, p.pitch)) && Holds(bits, at + p.pitch, Field(s.pitchGain, p.pitchGain))
    && Holds(bits, at + p.pitch + p.pitchGain, Field(s.gain, p.gain))
    && var codes := at + p.pitch + p.pitchGain + p.gain;
       && (forall i :: 0 <= i < |s.codes| ==> Holds(bits, codes + i * p.index, Field(s.codes[i], p.index)))
       && (forall i :: 0 <= i < |s.codes2| ==>
             Holds(bits, codes + p.count * p.index + i * p.index, Field(s.codes2[i], p.index)))
  }

  lemma SubframeAt(bits: seq<bool>, at: int, p: Places, s: Subframe)
    requires SubframeOk(LayoutAt(p), s) && Holds(bits, at, SubframeBits(LayoutAt(p), s))
    ensures SubframeStands(bits, at, p, s)
  {
    hide Field, RunBits, Holds, InWidth, AllInWidth;
    var c, d := RunBits(s.codes, p.index), RunBits(s.codes2, p.index);
    var g := Field(s.gain, p.gain);
    var e := Field(s.pitchGain, p.pitchGain);
    Split(bits, at, Field(s.pitch, p.pitch), e + (g + (c + d)));
    Split(bits, at + p.pitch, e, g + (c + d));
    Split(bits, at + p.pitch + p.pitchGain, g, c + d);
    var codes := at + p.pitch + p.pitchGain + p.gain;
    Split(bits, codes, c, d);
    RunAt(bits, codes, s.codes, p.index);
    RunAt(bits, codes + |c|, s.codes2, p.index);
  }

  // ----- frames -----

  /** The fields in front of the subframes, and the extra ones, in their places. */
  lemma HeadAt(f: NbFrame, bits: seq<bool>, p: Places, l: SubLayout, olPitch: nat, coef: nat)
    requires NbOk(f) && f.Coded? && bits == NbBits(f) && p == NbPlaces(f.id) && l == NbLayout(NbSubmode(f.id))
    requires olPitch == OlPitchBits(f.id) && coef == PitchCoefBits(f.id)
    ensures |bits| == p.total && |f.lsp| == p.lsps && Holds(bits, 0, Field(0, 1)) && Holds(bits, 1, Field(f.id, 4))
    ensures forall i :: 0 <= i < |f.lsp| ==> Holds(bits, 5 + i * 6, Field(f.lsp[i], 6))
    ensures Holds(bits, 5 + 6 * p.lsps, Field(f.olPitch, olPitch))
    ensures Holds(bits, 5 + 6 * p.lsps + olPitch, Field(f.pitchCoef, coef))
    ensures Holds(bits, p.start - 5, Field(f.olGain, 5))
    ensures Holds(bits, p.start + 4 * p.width, Field(f.extra, ExtraBits(f.id)))
    ensures |f.subframes| == 4 && SubframesOk(l, f.subframes) && Holds(bits, p.start, SubframesBits(l, f.subframes))
  {
    hide *;
    HeadFields(f);
    NbPlacesAgree(f.id);
    HeadWidths(f.id);
    NbLength(f);
    FrameCut(f, bits, RunBits(f.lsp, 6), Field(f.olPitch, olPitch), Field(f.pitchCoef, coef), Field(f.olGain, 5),
             SubframesBits(l, f.subframes), Field(f.extra, ExtraBits(f.id)));
    FourSubframes(l, f.subframes);
    SixBits(bits, f.lsp);
  }

  lemma FrameCut(f: NbFrame, bits: seq<bool>, r: seq<bool>, o: seq<bool>, c: seq<bool>, g: seq<bool>, s: seq<bool>,
                 e: seq<bool>)
    requires NbOk(f) && f.Coded? && bits == NbBits(f) && r == RunBits(f.lsp, 6)
    requires o == Field(f.olPitch, OlPitchBits(f.id)) && c == Field(f.pitchCoef, PitchCoefBits(f.id))
    requires g == Field(f.olGain, 5) && s == SubframesBits(NbLayout(NbSubmode(f.id)), f.subframes)
    requires e == Field(f.extra, ExtraBits(f.id))
    ensures Holds(bits, 0, Field(0, 1)) && Holds(bits, 1, Field(f.id, 4)) && Holds(bits, 5, r)
    ensures var at := 5 + |r|;
      && Holds(bits, at, o) && Holds(bits, at + |o|, c) && Holds(bits, at + |o| + |c|, g)
      && Holds(bits, at + |o| + |c| + |g|, s) && Holds(bits, at + |o| + |c| + |g| + |s|, e)
  {
    hide NbSubmode, NbLayout, OlPitchBits, PitchCoefBits, ExtraBits, SubframesBits, RunBits, Field, Holds;
    FramePieces(bits, f.id, r, o, c, g, s, e);
  }

  /** The eight pieces of a frame. */
  lemma FramePieces(bits: seq<bool>, id: nat, r: seq<bool>, o: seq<bool>, c: seq<bool>, g: seq<bool>, s: seq<bool>,
                    e: seq<bool>)
    requires bits == Field(0, 1) + (Field(id, 4) + (r + (o + (c + (g + (s + e))))))
    ensures Holds(bits, 0, Field(0, 1)) && Holds(bits, 1, Field(id, 4)) && Holds(bits, 5, r)
    ensures var at := 5 + |r|;
      && Holds(bits, at, o) && Holds(bits, at + |o|, c) && Holds(bits, at + |o| + |c|, g)
      && Holds(bits, at + |o| + |c| + |g|, s) && Holds(bits, at + |o| + |c| + |g| + |s|, e)
  {
    Whole(bits);
    hide Field, Holds;
    var at := 5 + |r|;
    Split(bits, 0, Field(0, 1), Field(id, 4) + (r + (o + (c + (g + (s + e))))));
    Split(bits, 1, Field(id, 4), r + (o + (c + (g + (s + e)))));
    Split(bits, 5, r, o + (c + (g + (s + e))));
    Split(bits, at, o, c + (g + (s + e)));
    Split(bits, at + |o|, c, g + (s + e));
    Split(bits, at + |o| + |c|, g, s + e);
    Split(bits, at + |o| + |c| + |g|, s, e);
  }

  lemma Whole(bits: seq<bool>)
    ensures Holds(bits, 0, bits)
  {}

  lemma FourSubframes(l: SubLayout, ss: seq<Subframe>)
    requires SubframesOk(l, ss) && |ss| == 4
    ensures |SubframesBits(l, ss)| == 4 * l.Width()
  {
    hide *;
    SubframesLength(l, ss);
  }

  lemma SixBits(bits: seq<bool>, lsp: seq<nat>)
    requires Holds(bits, 5, RunBits(lsp, 6))
    ensures |RunBits(lsp, 6)| == 6 * |lsp|
    ensures forall i :: 0 <= i < |lsp| ==> Holds(bits, 5 + i * 6, Field(lsp[i], 6))
  {
    hide *;
    RunAt(bits, 5, lsp, 6);
  }

  lemma HeadFields(f: NbFrame)
    requires NbOk(f) && f.Coded?
    ensures 1 <= f.id <= 8 && |f.lsp| == NbSubmode(f.id).lspIndices && |f.subframes| == 4
    ensures SubframesOk(NbLayout(NbSubmode(f.id)), f.subframes)
  {
    hide NbSubmode, NbLayout, SubframesOk, AllInWidth;
  }

  lemma SubframeFieldsAt(f: NbFrame, bits: seq<bool>, p: Places, sub: nat)
    requires NbOk(f) && f.Coded? && bits == NbBits(f) && p == NbPlaces(f.id) && sub < 4
    ensures |f.subframes| == 4 && SubframeStands(bits, p.start + sub * p.width, p, f.subframes[sub])
    ensures |f.subframes[sub].codes| == p.count && |f.subframes[sub].codes2| == if p.twice then p.count else 0
  {
    hide *;
    HeadFields(f);
    NbPlacesAgree(f.id);
    HeadAt(f, bits, p, LayoutAt(p), OlPitchBits(f.id), PitchCoefBits(f.id));
    SubframesAt(bits, p.start, LayoutAt(p), f.subframes);
    OneSubframe(bits, p, f.subframes, sub);
  }

  lemma OneSubframe(bits: seq<bool>, p: Places, ss: seq<Subframe>, sub: nat)
    requires sub < |ss| && SubframesOk(LayoutAt(p), ss)
    requires Holds(bits, p.start + sub * p.width, SubframeBits(LayoutAt(p), ss[sub]))
    ensures SubframeStands(bits, p.start + sub * p.width, p, ss[sub])
    ensures |ss[sub].codes| == p.count && |ss[sub].codes2| == if p.twice then p.count else 0
  {
    hide Field, RunBits, Holds, InWidth, AllInWidth, SubframeBits, SubframeStands;
    SubframeAt(bits, p.start + sub * p.width, p, ss[sub]);
  }

  /** The fields of a layer in their places. */
  ghost predicate LayerPlaced(bits: seq<bool>, f: Layer) {
    match f
    case NullLayer => bits == [true, false, false, false]
    case Layer(id, lsp, subframes) =>
      1 <= id <= 4 && LayerFieldsPlaced(bits, LayerPlaces(id), id, lsp, subframes)
  }

  ghost predicate LayerFieldsPlaced(bits: seq<bool>, p: Places, id: nat, lsp: seq<nat>, subframes: seq<Subframe>) {
    && |bits| == p.total && |lsp| == 2 && |subframes| == 4
    && Holds(bits, 0, Field(1, 1)) && Holds(bits, 1, Field(id, 3))
    && Holds(bits, 4, Field(lsp[0], 6)) && Holds(bits, 10, Field(lsp[1], 6))
    && forall sub :: 0 <= sub < 4 ==> SubframeStands(bits, 16 + sub * p.width, p, subframes[sub])
  }

  lemma LayerStands(f: Layer)
    requires LayerOk(f)
    ensures LayerPlaced(LayerBits(f), f)
  {
    if f.Layer? {
      LayerFields(f);
      hide LayerOk, LayerBits, LayerFieldsPlaced, HbLayout, SubframesOk, LayerPlaces, WbSubmode;
      LayerAt(f, LayerBits(f), LayerPlaces(f.id));
    } else {
      NullBits();
    }
  }

  lemma LayerPlacesStart(id: nat)
    requires 1 <= id <= 4
    ensures LayerPlaces(id).lsps == 2 && LayerPlaces(id).start == 16
  {}

  lemma NullBits()
    ensures LayerBits(NullLayer) == [true, false, false, false]
  {
    assert Field(0, 3) == Field(0, 2) + [false] && Field(0, 1) == [false] && Field(1, 1) == [true];
  }

  lemma LayerAt(f: Layer, bits: seq<bool>, p: Places)
    requires LayerOk(f) && f.Layer? && 1 <= f.id <= 4 && bits == LayerBits(f) && p == LayerPlaces(f.id)
    ensures LayerFieldsPlaced(bits, p, f.id, f.lsp, f.subframes)
  {
    hide LayerOk, LayerBits, SubframeStands, Field, Holds, HbLayout, SubframesOk, LayerPlaces, WbSubmode, RunBits;
    hide SubframesBits, SubframeBits, SubLayout.Width;
    LayerFields(f);
    LayerPlacesAgree(f.id);
    LayerPlacesStart(f.id);
    LayerLength(f);
    LayerCut(f, bits, RunBits(f.lsp, 6), SubframesBits(LayoutAt(p), f.subframes));
    TwoIndices(bits, f.lsp);
    SubframesAt(bits, p.start, LayoutAt(p), f.subframes);
    forall sub | 0 <= sub < 4
      ensures SubframeStands(bits, 16 + sub * p.width, p, f.subframes[sub])
    {
      OneSubframe(bits, p, f.subframes, sub);
    }
  }

  lemma TwoIndices(bits: seq<bool>, lsp: seq<nat>)
    requires |lsp| == 2 && Holds(bits, 4, RunBits(lsp, 6))
    ensures Holds(bits, 4, Field(lsp[0], 6)) && Holds(bits, 10, Field(lsp[1], 6))
  {
    hide *;
    RunAt(bits, 4, lsp, 6);
    assert Holds(bits, 4 + 0 * 6, Field(lsp[0], 6)) && Holds(bits, 4 + 1 * 6, Field(lsp[1], 6));
  }

  lemma LayerFields(f: Layer)
    requires LayerOk(f) && f.Layer?
    ensures 1 <= f.id <= 4 && |f.lsp| == WbSubmode(f.id).lspIndices && |f.subframes| == 4
    ensures SubframesOk(HbLayout(WbSubmode(f.id)), f.subframes)
  {
    hide WbSubmode, HbLayout, SubframesOk, AllInWidth;
  }

  lemma LayerCut(f: Layer, bits: seq<bool>, r: seq<bool>, s: seq<bool>)
    requires LayerOk(f) && f.Layer? && bits == LayerBits(f) && r == RunBits(f.lsp, 6)
    requires s == SubframesBits(HbLayout(WbSubmode(f.id)), f.subframes)
    ensures |r| == 6 * |f.lsp|
    ensures Holds(bits, 0, Field(1, 1)) && Holds(bits, 1, Field(f.id, 3))
    ensures Holds(bits, 4, r) && Holds(bits, 4 + |r|, s)
  {
    hide WbSubmode, HbLayout, SubframesBits, RunBits, Field, Holds;
    Whole(bits);
    Split(bits, 0, Field(1, 1), Field(f.id, 3) + (r + s));
    Split(bits, 1, Field(f.id, 3), r + s);
    Split(bits, 4, r, s);
  }

  // ----- what an analysis sends -----

  /** The first lag of the pitch range, for the sub-modes that look for one. */
  function FirstLag(a: Analysis): int
    requires a.Speech?
  {
    if a.id == 2 then a.olPitch else 17
  }

  /** There is a pitch to look for: not in the sub-modes that force the gain, and not where the range starts before the
      frame and may not. */
  predicate Searched(a: Analysis, sub: nat)
    requires a.Speech?
  {
    2 <= a.id <= 7 && (a.bounded ==> FirstLag(a) <= 40 * sub)
  }

  lemma SearchedIs(a: Analysis, sub: nat)
    requires a.Ok() && a.Speech? && sub < 4
    ensures Searched(a, sub) <==> a.Mode().ltp.ThreeTap? && a.PitchStart() <= a.PitchEnd(sub)
    ensures 2 <= a.id <= 7 ==> a.PitchStart() == FirstLag(a)
  {
    HeadWidths(a.id);
    hide NbSubmode, Analysis.SubOk, InWidth, AllInWidth;
  }

  /** A frame that carries what the analysis decided. */
  ghost predicate Means(f: NbFrame, a: Analysis) {
    match a
    case Quiet => f.Silent?
    case Speech(id, lsp, olPitch, pitchCoef, olGain, subs, dtxCount, bounded) =>
      && f.Coded? && f.id == id && f.lsp == lsp && f.pitchCoef == pitchCoef && f.olGain == olGain
      && f.olPitch == (if id == 1 || id == 2 || id == 8 then olPitch - 17 else 0)
      && f.extra == (if id == 1 && dtxCount > 0 then 15 else 0)
      && |f.subframes| == |subs| == 4
      && forall sub :: 0 <= sub < 4 ==> SubMeans(f.subframes[sub], subs[sub], Searched(a, sub), FirstLag(a))
  }

  ghost predicate SubMeans(f: Subframe, s: SubChoice, searched: bool, first: int) {
    && f.gain == s.gain && f.codes == s.codes && f.codes2 == s.codes2
    && (searched ==> first + f.pitch == s.bestPitch && f.pitchGain == s.gainIndex)
    && (!searched ==> f.pitch == 0 && f.pitchGain == 0)
  }

  lemma SubSentMeans(a: Analysis, sub: nat)
    requires a.Ok() && a.Speech? && sub < 4
    ensures a.SubOk(sub) && SubMeans(a.SentSubframe(sub), a.subs[sub], Searched(a, sub), FirstLag(a))
  {
    assert a.SubOk(sub);
    SearchedIs(a, sub);
    hide NbSubmode, InWidth, AllInWidth, Searched, Analysis.PitchEnd, Analysis.PitchStart;
  }

  lemma SentMeans(a: Analysis)
    requires a.Ok()
    ensures NbOk(a.Sent()) && Means(a.Sent(), a)
  {
    a.SentOk();
    if a.Speech? {
      HeadWidths(a.id);
      forall sub | 0 <= sub < 4
        ensures SubMeans(a.SentSubframe(sub), a.subs[sub], Searched(a, sub), FirstLag(a))
      {
        SubSentMeans(a, sub);
      }
      hide NbSubmode, NbLayout, Analysis.SubOk, InWidth, AllInWidth, NbOk, SubMeans, Analysis.SentSubframe;
    }
  }

  lemma MeansHead(f: NbFrame, a: Analysis)
    requires NbOk(f) && a.Speech? && Means(f, a)
    ensures f.Coded? && 1 <= a.id <= 8 && f.id == a.id && f.lsp == a.lsp && f.pitchCoef == a.pitchCoef
    ensures f.olGain == a.olGain && f.olPitch == if a.id == 1 || a.id == 2 || a.id == 8 then a.olPitch - 17 else 0
    ensures f.extra == if a.id == 1 && a.dtxCount > 0 then 15 else 0
  {
    hide SubMeans, NbSubmode, NbLayout, SubframesOk, AllInWidth, InWidth;
  }

  lemma MeansSub(f: NbFrame, a: Analysis, sub: nat)
    requires NbOk(f) && a.Speech? && Means(f, a) && sub < 4
    ensures f.Coded? && 1 <= a.id <= 8 && f.id == a.id && |f.subframes| == |a.subs| == 4
    ensures SubMeans(f.subframes[sub], a.subs[sub], Searched(a, sub), FirstLag(a))
  {
    hide SubMeans, NbSubmode, NbLayout, SubframesOk, AllInWidth, InWidth;
  }

  /** The choices of a frame in their places, in front of the subframes and behind them. */
  ghost predicate HeadPlaced(bits: seq<bool>, a: Analysis, p: Places)
    requires a.Speech?
  {
    && |bits| == p.total && |a.lsp| == p.lsps && Holds(bits, 0, Field(0, 1)) && Holds(bits, 1, Field(a.id, 4))
    && (forall i :: 0 <= i < |a.lsp| ==> Holds(bits, 5 + i * 6, Field(a.lsp[i], 6)))
    && (a.id == 1 || a.id == 2 || a.id == 8 ==> Holds(bits, 23, Field(a.olPitch - 17, 7)))
    && (a.id == 1 || a.id == 8 ==> Holds(bits, 30, Field(a.pitchCoef, 4)))
    && Holds(bits, p.start - 5, Field(a.olGain, 5))
    && (a.id == 1 ==> Holds(bits, 39, Field(if a.dtxCount > 0 then 15 else 0, 4)))
  }

  /** And those of a subframe. */
  ghost predicate SubPlaced(bits: seq<bool>, at: int, p: Places, s: SubChoice, searched: bool, first: int) {
    && Holds(bits, at, Field(if searched then s.bestPitch - first else 0, p.pitch))
    && Holds(bits, at + p.pitch, Field(if searched then s.gainIndex else 0, p.pitchGain))
    && Holds(bits, at + p.pitch + p.pitchGain, Field(s.gain, p.gain))
    && |s.codes| == p.count && |s.codes2| == (if p.twice then p.count else 0)
    && var codes := at + p.pitch + p.pitchGain + p.gain;
       && (forall i :: 0 <= i < |s.codes| ==> Holds(bits, codes + i * p.index, Field(s.codes[i], p.index)))
       && (forall i :: 0 <= i < |s.codes2| ==>
             Holds(bits, codes + p.count * p.index + i * p.index, Field(s.codes2[i], p.index)))
  }

  lemma HeadChoicesAt(f: NbFrame, a: Analysis, bits: seq<bool>, p: Places)
    requires NbOk(f) && a.Speech? && Means(f, a) && 1 <= a.id <= 8 && bits == NbBits(f) && p == NbPlaces(a.id)
    ensures HeadPlaced(bits, a, p)
  {
    hide NbOk, NbBits, Means, Field, Holds, NbPlaces, NbLayout, NbSubmode, OlPitchBits, PitchCoefBits, SubframesOk;
    hide ExtraBits;
    MeansHead(f, a);
    HeadWidths(a.id);
    FixedPlaces(a.id);
    HeadAt(f, bits, p, NbLayout(NbSubmode(f.id)), OlPitchBits(f.id), PitchCoefBits(f.id));
  }

  lemma FixedPlaces(id: nat)
    requires 1 <= id <= 8
    ensures id == 1 || id == 2 || id == 8 ==> NbPlaces(id).lsps == 3
    ensures id == 1 ==> NbPlaces(id).start + 4 * NbPlaces(id).width == 39 && ExtraBits(id) == 4
  {}

  lemma SubChoicesAt(f: NbFrame, a: Analysis, bits: seq<bool>, p: Places, sub: nat)
    requires NbOk(f) && a.Speech? && Means(f, a) && 1 <= a.id <= 8 && bits == NbBits(f) && p == NbPlaces(a.id)
    requires sub < 4 && |a.subs| == 4
    ensures SubPlaced(bits, p.start + sub * p.width, p, a.subs[sub], Searched(a, sub), FirstLag(a))
  {
    hide NbOk, NbBits, Means, Field, Holds, Searched, FirstLag, NbPlaces;
    MeansSub(f, a, sub);
    SubframeFieldsAt(f, bits, p, sub);
  }

  /** Every choice of an analysis stands in its place. */
  ghost predicate Placed(bits: seq<bool>, a: Analysis) {
    match a
    case Quiet => bits == [false, false, false, false, false]
    case Speech(id, lsp, olPitch, pitchCoef, olGain, subs, dtxCount, bounded) =>
      && 1 <= id <= 8 && |subs| == 4 && HeadPlaced(bits, a, NbPlaces(id))
      && forall sub :: 0 <= sub < 4 ==>
           var p := NbPlaces(id);
           SubPlaced(bits, p.start + sub * p.width, p, subs[sub], Searched(a, sub), FirstLag(a))
  }

  lemma SentPlaced(a: Analysis)
    requires a.Ok()
    ensures NbOk(a.Sent()) && Placed(NbBits(a.Sent()), a)
  {
    SentMeans(a);
    hide NbOk, Analysis.Sent, Means;
    if a.Speech? {
      SpeechPlaced(a.Sent(), a, NbBits(a.Sent()));
    } else {
      QuietPlaced(a);
    }
  }

  lemma QuietPlaced(a: Analysis)
    requires a.Ok() && a.Quiet? && NbOk(a.Sent())
    ensures NbBits(a.Sent()) == [false, false, false, false, false]
  {
    assert Field(0, 4) == Field(0, 3) + [false] && Field(0, 3) == Field(0, 2) + [false];
  }

  lemma SpeechPlaced(f: NbFrame, a: Analysis, bits: seq<bool>)
    requires NbOk(f) && a.Speech? && Means(f, a) && bits == NbBits(f)
    ensures Placed(bits, a)
  {
    hide NbOk, NbBits, Means, NbPlaces, HeadPlaced, SubPlaced, Searched, FirstLag;
    MeansSub(f, a, 0);
    var p := NbPlaces(a.id);
    HeadChoicesAt(f, a, bits, p);
    forall sub | 0 <= sub < 4
      ensures SubPlaced(bits, p.start + sub * p.width, p, a.subs[sub], Searched(a, sub), FirstLag(a))
    {
      SubChoicesAt(f, a, bits, p, sub);
    }
  }
}
