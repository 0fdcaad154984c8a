/** What the analysis of an encoder decides, the fields it turns into, and the places of those fields in a frame. */
module FrameChoices {
  import opened BitFields
  import opened FrameSyntax

  const MIN_PITCH := 17
  const MAX_PITCH := 144
  const SUBFRAME_SIZE := 40

  // ----- what the encoder decides -----

  datatype SubChoice = SubChoice(bestPitch: int, gainIndex: nat, gain: nat, codes: seq<nat>, codes2: seq<nat>)

  datatype Analysis = Quiet | Speech(id: nat, lsp: seq<nat>, olPitch: int, pitchCoef: nat, olGain: nat,
                                     subs: seq<SubChoice>, dtxCount: nat, bounded: bool) {

    function Mode(): Submode
      requires Speech? && 1 <= id <= 8
    {
      NbSubmode(id)
    }

    /** pit_min */
    function PitchStart(): int
      requires Speech? && 1 <= id <= 8
    {
      if Mode().lbrPitch != -1 then olPitch else MIN_PITCH
    }

    /** pit_max: past the start of the frame there is no pitch to use when it is bounded. */
    function PitchEnd(sub: nat): int
      requires Speech? && 1 <= id <= 8
    {
      var e := if Mode().lbrPitch != -1 then olPitch else MAX_PITCH;
      if bounded && e > SUBFRAME_SIZE * sub then SUBFRAME_SIZE * sub else e
    }

    /** What the quantizers guarantee of their results. */
    predicate SubOk(sub: nat)
      requires Speech? && 1 <= id <= 8 && sub < |subs|
    {
      var l, s := NbLayout(Mode()), subs[sub];
      && (PitchStart() <= PitchEnd(sub) ==>
          PitchStart() <= s.bestPitch <= PitchEnd(sub) && InWidth(s.gainIndex, l.pitchGainBits))
      && InWidth(s.gain, l.gainBits)
      && |s.codes| == l.count && AllInWidth(s.codes, l.indexBits)
      && |s.codes2| == l.SecondCount() && AllInWidth(s.codes2, l.indexBits)
    }

    predicate Ok() {
      Speech? ==>
        && 1 <= id <= 8
        && |lsp| == Mode().lspIndices && AllInWidth(lsp, LSP_INDEX_BITS)
        && (Mode().lbrPitch != -1 ==> MIN_PITCH <= olPitch <= MAX_PITCH)
        && InWidth(pitchCoef, PitchCoefBits(id)) && InWidth(olGain, 5)
        && |subs| == NB_SUBFRAMES && forall i :: 0 <= i < |subs| ==> SubOk(i)
    }

    /** The subframe fields the choices turn into: with an empty pitch range both pitch fields are zero. */
    function SentSubframe(sub: nat): Subframe
      requires Speech? && 1 <= id <= 8 && sub < |subs| && SubOk(sub)
    {
      var s := subs[sub];
      if Mode().ltp.Forced? || PitchEnd(sub) < PitchStart() then Subframe(0, 0, s.gain, s.codes, s.codes2)
      else Subframe(s.bestPitch - PitchStart(), s.gainIndex, s.gain, s.codes, s.codes2)
    }

    function SentSubframes(n: nat): (ss: seq<Subframe>)
      requires Speech? && 1 <= id <= 8 && n <= |subs| && forall i :: 0 <= i < n ==> SubOk(i)
      ensures |ss| == n
    {
      seq(n, i requires 0 <= i < n => SentSubframe(i))
    }

    /** The frame the choices turn into. */
    function Sent(): NbFrame
      requires Ok()
    {
      if Quiet? then Silent
      else NbFrame.Coded(id, lsp, if Mode().lbrPitch != -1 then olPitch - MIN_PITCH else 0, pitchCoef, olGain,
                         SentSubframes(NB_SUBFRAMES), if id == 1 && dtxCount > 0 then 15 else 0)
    }

    lemma SentSubframeOk(sub: nat)
      requires Ok() && Speech? && sub < NB_SUBFRAMES
      ensures SubframeOk(NbLayout(Mode()), SentSubframe(sub))
    {
      PitchFits(id);
      hide AllInWidth, Pow2;
      assert SubOk(sub);
    }

    lemma SentOk()
      requires Ok()
      ensures NbOk(Sent())
    {
      if Speech? {
        WidthFacts();
        forall i | 0 <= i < NB_SUBFRAMES
          ensures SubframeOk(NbLayout(Mode()), SentSubframe(i))
        {
          SentSubframeOk(i);
        }
        hide AllInWidth, Pow2, SubframeOk, Analysis.SentSubframe, NbLayout;
      }
    }
  }

  lemma WidthFacts()
    ensures Pow2(0) == 1 && Pow2(1) == 2 && Pow2(4) == 16 && Pow2(7) == 128
  {
    assert Pow2(2) == 4 && Pow2(3) == 8 && Pow2(5) == 32 && Pow2(6) == 64;
  }

  /** Any pitch in range, relative to its start, fits the pitch field; without a pitch field the range is one value. */
  lemma PitchFits(id: nat)
    requires 1 <= id <= 8
    ensures var l := NbLayout(NbSubmode(id));
      && InWidth(0, l.pitchBits) && InWidth(0, l.pitchGainBits)
      && (NbSubmode(id).lbrPitch == -1 ==> l.pitchBits == 7 && Pow2(l.pitchBits) == 128)
  {
    WidthFacts();
  }

  /** The lag pitch_unquant_3tap arrives at. */
  function DecodedPitch(f: NbFrame, sub: nat): int
    requires NbOk(f) && f.Coded? && sub < NB_SUBFRAMES
  {
    (if NbSubmode(f.id).lbrPitch != -1 then MIN_PITCH + f.olPitch else MIN_PITCH) + f.subframes[sub].pitch
  }

  /** It is the encoder's lag, or the start of the range when that was empty. */
  lemma PitchSurvives(a: Analysis, sub: nat)
    requires a.Ok() && a.Speech? && sub < NB_SUBFRAMES
    ensures NbOk(a.Sent())
    ensures DecodedPitch(a.Sent(), sub) ==
      if a.Mode().ltp.ThreeTap? && a.PitchStart() <= a.PitchEnd(sub) then a.subs[sub].bestPitch else a.PitchStart()
  {
    a.SentOk();
    assert a.SubOk(sub);
    hide NbSubmode, NbOk, InWidth, AllInWidth;
  }
}
