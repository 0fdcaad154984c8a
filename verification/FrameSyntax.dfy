/** The syntax of a Speex packet: the sub-mode tables of modes.c and modes_wb.c, and the bits that nb_celp.c, sb_celp.c,
    ltp.c, quant_lsp.c and cb_search.c write for a frame, field by field. */
module FrameSyntax {
  import opened BitFields
  import opened Remainders

  // ----- the sub-mode tables -----

  datatype Ltp = Forced | ThreeTap(pitchBits: nat, gainBits: nat)

  datatype Innovation = Noise | Folding | Split(nbSubvect: nat, shapeBits: nat, haveSign: bool)

  /** SpeexSubmode: what of it decides the fields of a frame. */
  datatype Submode = Submode(lbrPitch: int, forcedPitchGain: bool, haveSubframeGain: nat, doubleCodebook: bool,
                             lspIndices: nat, ltp: Ltp, innovation: Innovation, bitsPerFrame: nat)

  /** nb_submode1 to nb_submode8 */
  function NbSubmode(id: nat): Submode
    requires 1 <= id <= 8
  {
    if id == 1 then Submode(0, true, 0, false, 3, Forced, Noise, 43)
    else if id == 2 then Submode(0, false, 0, false, 3, ThreeTap(0, 5), Split(4, 4, false), 119)
    else if id == 3 then Submode(-1, false, 1, false, 3, ThreeTap(7, 5), Split(4, 5, false), 160)
    else if id == 4 then Submode(-1, false, 1, false, 3, ThreeTap(7, 5), Split(5, 7, false), 220)
    else if id == 5 then Submode(-1, false, 3, false, 5, ThreeTap(7, 7), Split(8, 6, false), 300)
    else if id == 6 then Submode(-1, false, 3, false, 5, ThreeTap(7, 7), Split(8, 8, false), 364)
    else if id == 7 then Submode(-1, false, 3, true, 5, ThreeTap(7, 7), Split(8, 6, false), 492)
    else Submode(0, true, 0, false, 3, Forced, Split(2, 5, false), 79)
  }

  /** wb_submode1 to wb_submode4 */
  function WbSubmode(id: nat): Submode
    requires 1 <= id <= 4
  {
    if id == 1 then Submode(0, false, 1, false, 2, Forced, Folding, 36)
    else if id == 2 then Submode(0, false, 1, false, 2, Forced, Split(4, 5, false), 112)
    else if id == 3 then Submode(0, false, 1, false, 2, Forced, Split(5, 7, true), 192)
    else Submode(0, false, 1, true, 2, Forced, Split(5, 7, true), 352)
  }

  const NB_SUBMODE_BITS := 4
  const SB_SUBMODE_BITS := 3
  const NB_SUBFRAMES := 4
  const LSP_INDEX_BITS := 6

  // ----- fields -----

  predicate InWidth(v: nat, width: nat) { v < Pow2(width) }

  predicate AllInWidth(vs: seq<nat>, width: nat) { forall i :: 0 <= i < |vs| ==> InWidth(vs[i], width) }

  /** Fields of the same width, one after the other. */
  function RunBits(vs: seq<nat>, width: nat): (bits: seq<bool>)
    ensures |bits| == |vs| * width
  {
    if vs == [] then []
    else
      BlockFits(|vs| - 1, width);
      RunBits(vs[..|vs| - 1], width) + Field(vs[|vs| - 1], width)
  }

  lemma RunStep(vs: seq<nat>, width: nat, i: nat)
    requires i < |vs|
    ensures RunBits(vs[..i + 1], width) == RunBits(vs[..i], width) + Field(vs[i], width)
  {
    assert vs[..i + 1][..i] == vs[..i];
  }

  // ----- subframes -----

  /** The widths a subframe is written with; zero for what a sub-mode leaves out. */
  datatype SubLayout = SubLayout(pitchBits: nat, pitchGainBits: nat, gainBits: nat, count: nat, indexBits: nat,
      twice: bool) {

    function SecondCount(): nat { if twice then count else 0 }

    function Width(): nat
    {
      pitchBits + pitchGainBits + gainBits + count * indexBits + SecondCount() * indexBits
    }
  }

  function IndexCount(inn: Innovation): nat { if inn.Split? then inn.nbSubvect else 0 }

  function IndexWidth(inn: Innovation): nat {
    if inn.Split? then inn.shapeBits + (if inn.haveSign then 1 else 0) else 0
  }

  function NbLayout(sm: Submode): SubLayout {
    SubLayout(if sm.ltp.ThreeTap? then sm.ltp.pitchBits else 0, if sm.ltp.ThreeTap? then sm.ltp.gainBits else 0,
              sm.haveSubframeGain, IndexCount(sm.innovation), IndexWidth(sm.innovation), sm.doubleCodebook)
  }

  /** In the high band the gain takes five bits when the low band is folded up and four otherwise. */
  function HbLayout(sm: Submode): SubLayout {
    var gainBits := if sm.innovation.Split? then 4 else 5;
    SubLayout(0, 0, gainBits, IndexCount(sm.innovation), IndexWidth(sm.innovation), sm.doubleCodebook)
  }

  /** What a subframe carries: pitch offset, pitch gain index, gain correction, and the codebook indices of one or two
      searches. */
  datatype Subframe = Subframe(pitch: nat, pitchGain: nat, gain: nat, codes: seq<nat>, codes2: seq<nat>)

  predicate SubframeOk(l: SubLayout, s: Subframe) {
    && InWidth(s.pitch, l.pitchBits) && InWidth(s.pitchGain, l.pitchGainBits) && InWidth(s.gain, l.gainBits)
    && |s.codes| == l.count && AllInWidth(s.codes, l.indexBits)
    && |s.codes2| == l.SecondCount() && AllInWidth(s.codes2, l.indexBits)
  }

  function SubframeBits(l: SubLayout, s: Subframe): (bits: seq<bool>) {
    Field(s.pitch, l.pitchBits) + (Field(s.pitchGain, l.pitchGainBits) + (Field(s.gain, l.gainBits)
      + (RunBits(s.codes, l.indexBits) + RunBits(s.codes2, l.indexBits))))
  }

  function SubframesBits(l: SubLayout, ss: seq<Subframe>): (bits: seq<bool>) {
    if ss == [] then [] else SubframesBits(l, ss[..|ss| - 1]) + SubframeBits(l, ss[|ss| - 1])
  }

  predicate SubframesOk(l: SubLayout, ss: seq<Subframe>) {
    forall i :: 0 <= i < |ss| ==> SubframeOk(l, ss[i])
  }

  // ----- frames -----

  /** A narrowband frame: nothing, or the fields of a sub-mode. */
  datatype NbFrame = Silent | Coded(id: nat, lsp: seq<nat>, olPitch: nat, pitchCoef: nat, olGain: nat,
                                    subframes: seq<Subframe>, extra: nat)

  function OlPitchBits(id: nat): nat
    requires 1 <= id <= 8
  {
    if NbSubmode(id).lbrPitch != -1 then 7 else 0
  }

  function PitchCoefBits(id: nat): nat
    requires 1 <= id <= 8
  {
    if NbSubmode(id).forcedPitchGain then 4 else 0
  }

  function ExtraBits(id: nat): nat { if id == 1 then 4 else 0 }

  predicate NbOk(f: NbFrame) {
    f.Coded? ==>
      && 1 <= f.id <= 8
      && |f.lsp| == NbSubmode(f.id).lspIndices && AllInWidth(f.lsp, LSP_INDEX_BITS)
      && InWidth(f.olPitch, OlPitchBits(f.id)) && InWidth(f.pitchCoef, PitchCoefBits(f.id)) && InWidth(f.olGain, 5)
      && |f.subframes| == NB_SUBFRAMES && SubframesOk(NbLayout(NbSubmode(f.id)), f.subframes)
      && InWidth(f.extra, ExtraBits(f.id))
  }

  function NbId(f: NbFrame): nat { if f.Coded? then f.id else 0 }

  /** Everything after the sub-mode number, in the encoder's order: the extra bits come last. */
  function NbBody(f: NbFrame): (bits: seq<bool>)
    requires f.Coded? && 1 <= f.id <= 8
  {
    RunBits(f.lsp, LSP_INDEX_BITS) + (Field(f.olPitch, OlPitchBits(f.id)) + (Field(f.pitchCoef, PitchCoefBits(f.id))
      + (Field(f.olGain, 5) + (SubframesBits(NbLayout(NbSubmode(f.id)), f.subframes)
          + Field(f.extra, ExtraBits(f.id))))))
  }

  /** The same in the decoder's order: the extra bits come before the subframes. */
  function NbBodyDecoded(f: NbFrame): (bits: seq<bool>)
    requires f.Coded? && 1 <= f.id <= 8
  {
    RunBits(f.lsp, LSP_INDEX_BITS) + (Field(f.olPitch, OlPitchBits(f.id)) + (Field(f.pitchCoef, PitchCoefBits(f.id))
      + (Field(f.olGain, 5) + (Field(f.extra, ExtraBits(f.id))
          + SubframesBits(NbLayout(NbSubmode(f.id)), f.subframes)))))
  }

  function NbTail(f: NbFrame): (bits: seq<bool>)
    requires NbOk(f)
  {
    if f.Coded? then NbBody(f) else []
  }

  function NbBits(f: NbFrame): (bits: seq<bool>)
    requires NbOk(f)
  {
    Field(0, 1) + (Field(NbId(f), NB_SUBMODE_BITS) + NbTail(f))
  }

  /** A high-band layer. */
  datatype Layer = NullLayer | Layer(id: nat, lsp: seq<nat>, subframes: seq<Subframe>)

  predicate LayerOk(f: Layer) {
    f.Layer? ==>
      && 1 <= f.id <= 4
      && |f.lsp| == WbSubmode(f.id).lspIndices && AllInWidth(f.lsp, LSP_INDEX_BITS)
      && |f.subframes| == NB_SUBFRAMES && SubframesOk(HbLayout(WbSubmode(f.id)), f.subframes)
  }

  function LayerId(f: Layer): nat { if f.Layer? then f.id else 0 }

  function LayerBody(f: Layer): (bits: seq<bool>)
    requires f.Layer? && 1 <= f.id <= 4
  {
    RunBits(f.lsp, LSP_INDEX_BITS) + SubframesBits(HbLayout(WbSubmode(f.id)), f.subframes)
  }

  function LayerTail(f: Layer): (bits: seq<bool>)
    requires LayerOk(f)
  {
    if f.Layer? then LayerBody(f) else []
  }

  function LayerBits(f: Layer): (bits: seq<bool>)
    requires LayerOk(f)
  {
    Field(1, 1) + (Field(LayerId(f), SB_SUBMODE_BITS) + LayerTail(f))
  }

  // ----- lengths -----

  lemma SubframeLength(l: SubLayout, s: Subframe)
    requires SubframeOk(l, s)
    ensures |SubframeBits(l, s)| == l.Width()
  {}

  lemma {:induction false} SubframesLength(l: SubLayout, ss: seq<Subframe>)
    requires SubframesOk(l, ss)
    ensures |SubframesBits(l, ss)| == |ss| * l.Width()
  {
    if ss != [] {
      SubframesLength(l, ss[..|ss| - 1]);
      SubframeLength(l, ss[|ss| - 1]);
      BlockFits(|ss| - 1, l.Width());
    }
  }

  /** The tables are consistent: the fields of each sub-mode add up to its announced length. */
  lemma NbTableSum(id: nat)
    requires 1 <= id <= 8
    ensures var sm := NbSubmode(id);
      5 + sm.lspIndices * LSP_INDEX_BITS + OlPitchBits(id) + PitchCoefBits(id) + 5
        + NB_SUBFRAMES * NbLayout(sm).Width() + ExtraBits(id) == sm.bitsPerFrame
  {
    NbWidth(id);
    AddedUp(id, NbSubmode(id), NbLayout(NbSubmode(id)).Width());
  }

  lemma AddedUp(id: nat, sm: Submode, width: nat)
    requires 1 <= id <= 8 && sm == NbSubmode(id)
    requires width == (if id == 1 then 0 else if id == 2 then 21 else if id == 3 then 33 else if id == 4 then 48
       else if id == 5 then 65 else if id == 6 then 81 else if id == 7 then 113 else 10)
    ensures 5 + sm.lspIndices * LSP_INDEX_BITS + OlPitchBits(id) + PitchCoefBits(id) + 5
      + NB_SUBFRAMES * width + ExtraBits(id) == sm.bitsPerFrame
  {}

  lemma NbWidth(id: nat)
    requires 1 <= id <= 8
    ensures NbLayout(NbSubmode(id)).Width() ==
      (if id == 1 then 0 else if id == 2 then 21 else if id == 3 then 33 else if id == 4 then 48
       else if id == 5 then 65 else if id == 6 then 81 else if id == 7 then 113 else 10)
  {
    var l := NbLayout(NbSubmode(id));
    hide SubLayout.Width;
    if l.twice {
      TwiceWidth(l);
    } else {
      OnceWidth(l);
    }
  }

  lemma WbTableSum(id: nat)
    requires 1 <= id <= 4
    ensures var sm := WbSubmode(id);
      4 + sm.lspIndices * LSP_INDEX_BITS + NB_SUBFRAMES * HbLayout(sm).Width() == sm.bitsPerFrame
  {
    WbWidth(id);
    hide HbLayout, SubLayout.Width;
  }

  lemma WbWidth(id: nat)
    requires 1 <= id <= 4
    ensures HbLayout(WbSubmode(id)).Width() == if id == 1 then 5 else if id == 2 then 24 else if id == 3 then 44 else 84
  {
    var l := HbLayout(WbSubmode(id));
    hide SubLayout.Width;
    if l.twice {
      TwiceWidth(l);
    } else {
      OnceWidth(l);
    }
  }

  lemma OnceWidth(l: SubLayout)
    requires !l.twice
    ensures l.Width() == l.pitchBits + l.pitchGainBits + l.gainBits + l.count * l.indexBits
  {}

  lemma TwiceWidth(l: SubLayout)
    requires l.twice
    ensures l.Width() == l.pitchBits + l.pitchGainBits + l.gainBits + l.count * l.indexBits + l.count * l.indexBits
  {}

  /** Every narrowband frame has the length its sub-mode's table entry announces, five bits if silent. */
  lemma NbLength(f: NbFrame)
    requires NbOk(f)
    ensures |NbBits(f)| == if f.Coded? then NbSubmode(f.id).bitsPerFrame else 5
  {
    if f.Coded? {
      var l := NbLayout(NbSubmode(f.id));
      NbTableSum(f.id);
      hide NbSubmode, NbLayout, OlPitchBits, PitchCoefBits, ExtraBits, SubframesBits, SubframesOk, RunBits, Field;
      hide SubLayout.Width;
      SubframesLength(l, f.subframes);
    }
  }

  /** And every layer too, four bits if null. */
  lemma LayerLength(f: Layer)
    requires LayerOk(f)
    ensures |LayerBits(f)| == if f.Layer? then WbSubmode(f.id).bitsPerFrame else 4
  {
    if f.Layer? {
      var l := HbLayout(WbSubmode(f.id));
      WbTableSum(f.id);
      hide WbSubmode, HbLayout, SubframesBits, SubframesOk, RunBits, Field, SubLayout.Width;
      SubframesLength(l, f.subframes);
    }
  }

  lemma OneSideEmpty(id: nat)
    requires 1 <= id <= 8
    ensures NbLayout(NbSubmode(id)).Width() == 0 || ExtraBits(id) == 0
  {}

  /** The encoder writes sub-mode 1's extra bits after the subframes and the decoder reads them before: it is the same
      place, because those subframes are empty, and no other sub-mode has any. */
  lemma OrdersAgree(f: NbFrame)
    requires NbOk(f) && f.Coded?
    ensures NbBody(f) == NbBodyDecoded(f)
  {
    hide NbSubmode, NbLayout, OlPitchBits, PitchCoefBits, ExtraBits, SubframesBits, SubframesOk, RunBits, Field;
    hide SubLayout.Width;
    hide InWidth, AllInWidth;
    var l := NbLayout(NbSubmode(f.id));
    OneSideEmpty(f.id);
    SubframesLength(l, f.subframes);
    EitherOrder(SubframesBits(l, f.subframes), Field(f.extra, ExtraBits(f.id)));
  }

  lemma EitherOrder(b: seq<bool>, c: seq<bool>)
    requires b == [] || c == []
    ensures b + c == c + b
  {}

  // ----- unique readability -----

  /** Peeling one field off the front of two equal streams. */
  lemma PeelField(a: nat, x: seq<bool>, b: nat, y: seq<bool>, width: nat)
    requires InWidth(a, width) && InWidth(b, width) && Field(a, width) + x == Field(b, width) + y
    ensures a == b && x == y
  {
    SplitEqual(Field(a, width), x, Field(b, width), y);
    EqualFields(a, b, width);
  }

  lemma {:induction false} EqualRuns(a: seq<nat>, b: seq<nat>, width: nat)
    requires |a| == |b| && AllInWidth(a, width) && AllInWidth(b, width) && RunBits(a, width) == RunBits(b, width)
    ensures a == b
  {
    if a != [] {
      var n := |a| - 1;
      hide Field, InWidth;
      SplitEqual(RunBits(a[..n], width), Field(a[n], width), RunBits(b[..n], width), Field(b[n], width));
      EqualRuns(a[..n], b[..n], width);
      EqualFields(a[n], b[n], width);
      assert a == a[..n] + [a[n]] && b == b[..n] + [b[n]];
    }
  }

  lemma PeelRun(a: seq<nat>, x: seq<bool>, b: seq<nat>, y: seq<bool>, width: nat)
    requires |a| == |b| && AllInWidth(a, width) && AllInWidth(b, width)
    requires RunBits(a, width) + x == RunBits(b, width) + y
    ensures a == b && x == y
  {
    hide AllInWidth, RunBits;
    SplitEqual(RunBits(a, width), x, RunBits(b, width), y);
    EqualRuns(a, b, width);
  }

  lemma EqualSubframe(l: SubLayout, s: Subframe, t: Subframe)
    requires SubframeOk(l, s) && SubframeOk(l, t) && SubframeBits(l, s) == SubframeBits(l, t)
    ensures s == t
  {
    hide Field, InWidth, AllInWidth, RunBits;
    var ac := RunBits(s.codes, l.indexBits) + RunBits(s.codes2, l.indexBits);
    var bd := RunBits(t.codes, l.indexBits) + RunBits(t.codes2, l.indexBits);
    var u, v := Field(s.gain, l.gainBits) + ac, Field(t.gain, l.gainBits) + bd;
    var g, h := Field(s.pitchGain, l.pitchGainBits) + u, Field(t.pitchGain, l.pitchGainBits) + v;
    PeelField(s.pitch, g, t.pitch, h, l.pitchBits);
    PeelField(s.pitchGain, u, t.pitchGain, v, l.pitchGainBits);
    PeelField(s.gain, ac, t.gain, bd, l.gainBits);
    PeelRun(s.codes, RunBits(s.codes2, l.indexBits), t.codes, RunBits(t.codes2, l.indexBits), l.indexBits);
    EqualRuns(s.codes2, t.codes2, l.indexBits);
  }

  lemma {:induction false} EqualSubframes(l: SubLayout, ss: seq<Subframe>, ts: seq<Subframe>)
    requires |ss| == |ts| && SubframesOk(l, ss) && SubframesOk(l, ts) && SubframesBits(l, ss) == SubframesBits(l, ts)
    ensures ss == ts
  {
    hide *;
    if ss == [] {
    } else {
      var n := |ss| - 1;
      SubframesLast(l, ss);
      SubframesLast(l, ts);
      EqualLengths(l, ss[..n], ts[..n]);
      SplitEqual(SubframesBits(l, ss[..n]), SubframeBits(l, ss[n]), SubframesBits(l, ts[..n]), SubframeBits(l, ts[n]));
      EqualSubframes(l, ss[..n], ts[..n]);
      EqualSubframe(l, ss[n], ts[n]);
      assert ss == ss[..n] + [ss[n]] && ts == ts[..n] + [ts[n]];
    }
  }

  lemma SubframesLast(l: SubLayout, ss: seq<Subframe>)
    requires SubframesOk(l, ss) && ss != []
    ensures var n := |ss| - 1;
      && SubframesOk(l, ss[..n]) && SubframeOk(l, ss[n])
      && SubframesBits(l, ss) == SubframesBits(l, ss[..n]) + SubframeBits(l, ss[n])
  {
    hide SubframeOk, SubframeBits;
  }

  lemma EqualLengths(l: SubLayout, ss: seq<Subframe>, ts: seq<Subframe>)
    requires |ss| == |ts| && SubframesOk(l, ss) && SubframesOk(l, ts)
    ensures |SubframesBits(l, ss)| == |SubframesBits(l, ts)|
  {
    hide SubframesBits, SubframesOk, SubLayout.Width;
    SubframesLength(l, ss);
    SubframesLength(l, ts);
  }

  lemma EqualBodies(f: NbFrame, g: NbFrame)
    requires NbOk(f) && NbOk(g) && f.Coded? && g.Coded? && f.id == g.id && NbBody(f) == NbBody(g)
    ensures f == g
  {
    assert 1 <= f.id <= 8;
    hide Field, InWidth, AllInWidth, RunBits, SubframesBits, NbOk, NbSubmode, NbLayout, OlPitchBits, PitchCoefBits;
    hide ExtraBits;
    var l := NbLayout(NbSubmode(f.id));
    BodyFields(f, g, l);
    var d, e := Field(f.extra, ExtraBits(f.id)), Field(g.extra, ExtraBits(f.id));
    var s, t := SubframesBits(l, f.subframes) + d, SubframesBits(l, g.subframes) + e;
    var u, v := Field(f.olGain, 5) + s, Field(g.olGain, 5) + t;
    var p, q := Field(f.pitchCoef, PitchCoefBits(f.id)) + u, Field(g.pitchCoef, PitchCoefBits(f.id)) + v;
    var m, n := Field(f.olPitch, OlPitchBits(f.id)) + p, Field(g.olPitch, OlPitchBits(f.id)) + q;
    PeelRun(f.lsp, m, g.lsp, n, LSP_INDEX_BITS);
    PeelField(f.olPitch, p, g.olPitch, q, OlPitchBits(f.id));
    PeelField(f.pitchCoef, u, g.pitchCoef, v, PitchCoefBits(f.id));
    PeelField(f.olGain, s, g.olGain, t, 5);
    PeelSubframes(l, f.subframes, d, g.subframes, e);
    EqualFields(f.extra, g.extra, ExtraBits(f.id));
  }

  lemma PeelSubframes(l: SubLayout, ss: seq<Subframe>, x: seq<bool>, ts: seq<Subframe>, y: seq<bool>)
    requires |ss| == |ts| && SubframesOk(l, ss) && SubframesOk(l, ts)
    requires SubframesBits(l, ss) + x == SubframesBits(l, ts) + y
    ensures ss == ts && x == y
  {
    hide SubframesBits, SubframesOk;
    EqualLengths(l, ss, ts);
    SplitEqual(SubframesBits(l, ss), x, SubframesBits(l, ts), y);
    EqualSubframes(l, ss, ts);
  }

  /** A stream can be read as a narrowband frame in one way only. */
  lemma NbUnique(f: NbFrame, x: seq<bool>, g: NbFrame, y: seq<bool>)
    requires NbOk(f) && NbOk(g) && NbBits(f) + x == NbBits(g) + y
    ensures f == g && x == y
  {
    IdsInWidth(f);
    IdsInWidth(g);
    NbLength(f);
    NbLength(g);
    hide Field, InWidth, NbOk, NbTail, NbSubmode;
    var a, b := NbTail(f), NbTail(g);
    var p, q := Field(NbId(f), NB_SUBMODE_BITS), Field(NbId(g), NB_SUBMODE_BITS);
    Regroup(Field(0, 1), p, a, x);
    Regroup(Field(0, 1), q, b, y);
    PeelField(0, p + (a + x), 0, q + (b + y), 1);
    PeelField(NbId(f), a + x, NbId(g), b + y, NB_SUBMODE_BITS);
    SplitEqual(a, x, b, y);
    TailsEqual(f, g);
  }

  lemma Regroup(h: seq<bool>, i: seq<bool>, t: seq<bool>, x: seq<bool>)
    ensures (h + (i + t)) + x == h + (i + (t + x))
  {}

  lemma TailsEqual(f: NbFrame, g: NbFrame)
    requires NbOk(f) && NbOk(g) && NbId(f) == NbId(g) && NbTail(f) == NbTail(g)
    ensures f == g
  {
    IdsInWidth(f);
    IdsInWidth(g);
    hide NbOk, NbBody, InWidth;
    if f.Coded? {
      EqualBodies(f, g);
    }
  }

  lemma IdsInWidth(f: NbFrame)
    requires NbOk(f)
    ensures InWidth(NbId(f), NB_SUBMODE_BITS) && InWidth(0, 1) && InWidth(1, 1)
    ensures NbId(f) == 0 <==> f.Silent?
  {
    assert Pow2(4) == 16 && Pow2(1) == 2;
  }

  lemma LayerIdInWidth(f: Layer)
    requires LayerOk(f)
    ensures InWidth(LayerId(f), SB_SUBMODE_BITS) && InWidth(0, 1) && InWidth(1, 1)
    ensures LayerId(f) == 0 <==> f.NullLayer?
  {
    assert Pow2(3) == 8 && Pow2(1) == 2;
  }

  /** And as a layer too. */
  lemma LayerUnique(f: Layer, x: seq<bool>, g: Layer, y: seq<bool>)
    requires LayerOk(f) && LayerOk(g) && LayerBits(f) + x == LayerBits(g) + y
    ensures f == g && x == y
  {
    LayerIdInWidth(f);
    LayerIdInWidth(g);
    LayerLength(f);
    LayerLength(g);
    hide Field, InWidth, LayerOk, LayerTail, WbSubmode;
    var a, b := LayerTail(f), LayerTail(g);
    var p, q := Field(LayerId(f), SB_SUBMODE_BITS), Field(LayerId(g), SB_SUBMODE_BITS);
    Regroup(Field(1, 1), p, a, x);
    Regroup(Field(1, 1), q, b, y);
    PeelField(1, p + (a + x), 1, q + (b + y), 1);
    PeelField(LayerId(f), a + x, LayerId(g), b + y, SB_SUBMODE_BITS);
    SplitEqual(a, x, b, y);
    LayerTailsEqual(f, g);
  }

  lemma LayerTailsEqual(f: Layer, g: Layer)
    requires LayerOk(f) && LayerOk(g) && LayerId(f) == LayerId(g) && LayerTail(f) == LayerTail(g)
    ensures f == g
  {
    LayerIdInWidth(f);
    LayerIdInWidth(g);
    hide LayerOk, LayerBody, InWidth;
    if f.Layer? {
      EqualLayerBodies(f, g);
    }
  }

  lemma EqualLayerBodies(f: Layer, g: Layer)
    requires LayerOk(f) && LayerOk(g) && f.Layer? && g.Layer? && f.id == g.id && LayerBody(f) == LayerBody(g)
    ensures f == g
  {
    hide InWidth, AllInWidth, RunBits, SubframesBits, SubframesOk, HbLayout;
    var l := HbLayout(WbSubmode(f.id));
    PeelRun(f.lsp, SubframesBits(l, f.subframes), g.lsp, SubframesBits(l, g.subframes), LSP_INDEX_BITS);
    EqualSubframes(l, f.subframes, g.subframes);
  }

  lemma BodyFields(f: NbFrame, g: NbFrame, l: SubLayout)
    requires NbOk(f) && NbOk(g) && f.Coded? && g.Coded? && f.id == g.id && l == NbLayout(NbSubmode(f.id))
    ensures |f.lsp| == |g.lsp| && AllInWidth(f.lsp, 6) && AllInWidth(g.lsp, 6)
    ensures InWidth(f.olPitch, OlPitchBits(f.id)) && InWidth(g.olPitch, OlPitchBits(f.id))
    ensures InWidth(f.pitchCoef, PitchCoefBits(f.id)) && InWidth(g.pitchCoef, PitchCoefBits(f.id))
    ensures InWidth(f.olGain, 5) && InWidth(g.olGain, 5)
    ensures InWidth(f.extra, ExtraBits(f.id)) && InWidth(g.extra, ExtraBits(f.id))
    ensures |f.subframes| == |g.subframes| && SubframesOk(l, f.subframes) && SubframesOk(l, g.subframes)
  {
    hide InWidth, AllInWidth, SubframesOk;
  }
}
