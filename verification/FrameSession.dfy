/** Whole streams: any run of frames with any layers is written to a packet, and decoders of every level read it
    back. */
module FrameSession {
  import BitFields
  import opened BitStream
  import opened ByteBits
  import opened FrameChoices
  import opened FrameCodec
  import opened FrameLayout
  import opened FrameStream
  import opened FrameSyntax
  import opened Remainders

  /** What one call of an encoder sends: the low band and up to two layers on top. */
  datatype Sound = Sound(a: Analysis, layers: seq<Layer>) {

    predicate Ok() {
      && a.Ok() && |layers| <= 2
      && (forall i :: 0 <= i < |layers| ==> LayerOk(layers[i]) && LayerId(layers[i]) <= MaxId(i + 1))
    }

    function Nb(): NbFrame
      requires Ok()
    {
      a.Sent()
    }
  }

  /** The sub-modes of the wideband layer and of the ultra-wideband layer. */
  function MaxId(level: nat): nat { if level == 1 then 4 else 1 }

  /** The layers a decoder of the given level leaves for the next scan to skip. */
  function Left(level: nat, layers: seq<Layer>): seq<Layer> { layers[Min(level, |layers|)..] }

  /** A null layer cannot be skipped: a decoder of this level must be able to read all there are. */
  predicate Skippable(level: nat, layers: seq<Layer>) {
    forall i :: level <= i < |layers| ==> layers[i].Layer?
  }

  /** What the decoder of that level reports: missing layers read as null. */
  function Expected(level: nat, s: Sound): Heard
    requires s.Ok()
  {
    Frame(s.Nb(), seq(level, i requires 0 <= i < level => if i < |s.layers| then s.layers[i] else NullLayer))
  }

  /** One decoder call at any level: nb_decode, then a layer per level.  It reports what was sent, or the end of the
      packet. */
  method Decode(level: nat, bits: SpeexBits, callbacks: map<nat, Handler>, ghost ls: seq<Layer>, ghost s: Sound,
                ghost x: seq<bool>, ghost end: bool)
    returns (r: Heard)
    requires bits.Valid() && forall id :: id in callbacks ==> callbacks[id].taken <= 32
    modifies bits
    ensures bits.Valid() && bits.chars == old(bits.chars) && bits.Contents() == old(bits.Contents())
    ensures !old(bits.overflow) && end && AtEnd(old(bits.Unread()), ls) ==> r == Failed(-1)
    ensures RunsOut(old(bits.Unread()), ls) ==> r == Failed(-1)
    ensures !old(bits.overflow) && !end && Carries(old(bits.Unread()), ls, s, x) ==> Reported(level, s, x, r, bits)
    ensures !old(bits.overflow) && !end && NullAhead(old(bits.Unread()), ls) ==> r == Failed(-2)
    decreases level
  {
    hide NullAhead, RunsOut, Bits, Carries, Reported, AtEnd, Low;
    ghost var good := !bits.overflow && !end && Carries(bits.Unread(), ls, s, x);
    if good {
      CarriesLow(bits.Unread(), ls, s, x);
    }
    if level == 0 {
      r := DecodeLow(bits, callbacks, ls, s, x, end);
    } else {
      r := Decode(level - 1, bits, callbacks, ls, s, x, end);
      if good {
        NotFailed(level - 1, s, x, r, bits);
      }
      if r.Failed? {
        return;
      }
      r := DecodeHigh(level, bits, r, s, x, good);
    }
  }

  /** What insert_terminator leaves. */
  predicate IsPadding(p: seq<bool>) { |p| < 8 && p == Padding(8 - |p|) }

  /** Behind layers that can be skipped there is only padding. */
  ghost predicate AtEnd(stream: seq<bool>, ls: seq<Layer>) {
    LayersOk(ls) && LayersBits(ls) <= stream && IsPadding(stream[|LayersBits(ls)|..])
  }

  predicate Carries(stream: seq<bool>, ls: seq<Layer>, s: Sound, x: seq<bool>) {
    s.Ok() && NbOk(s.Nb()) && Low(x) && LayersAre(stream, ls, s, x)
  }

  lemma CarriesLow(stream: seq<bool>, ls: seq<Layer>, s: Sound, x: seq<bool>)
    requires Carries(stream, ls, s, x)
    ensures Low(x)
  {}

  /** The decoder said what was expected and stopped in front of the layers it does not know. */
  ghost predicate Reported(level: nat, s: Sound, x: seq<bool>, r: Heard, bits: SpeexBits)
    reads bits, bits.chars
  {
    && bits.Valid() && s.Ok() && r == Expected(level, s) && !bits.overflow
    && bits.Unread() == Above(level, s, x)
  }

  lemma NotFailed(level: nat, s: Sound, x: seq<bool>, r: Heard, bits: SpeexBits)
    requires Reported(level, s, x, r, bits)
    ensures r.Frame?
  {}

  /** Level zero. */
  method DecodeLow(bits: SpeexBits, callbacks: map<nat, Handler>, ghost ls: seq<Layer>, ghost s: Sound,
                   ghost x: seq<bool>, ghost end: bool)
    returns (r: Heard)
    requires bits.Valid() && forall id :: id in callbacks ==> callbacks[id].taken <= 32
    modifies bits
    ensures bits.Valid() && bits.chars == old(bits.chars) && bits.Contents() == old(bits.Contents())
    ensures !old(bits.overflow) && end && AtEnd(old(bits.Unread()), ls) ==> r == Failed(-1)
    ensures RunsOut(old(bits.Unread()), ls) ==> r == Failed(-1)
    ensures !old(bits.overflow) && !end && Carries(old(bits.Unread()), ls, s, x) ==> Reported(0, s, x, r, bits)
    ensures !old(bits.overflow) && !end && NullAhead(old(bits.Unread()), ls) ==> r == Failed(-2)
  {
    hide NullAhead, RunsOut, Bits, LayerOk, NbOk, NbTail, LayersBits, Analysis.Sent, Analysis.Ok, Block, AtEnd;
    ghost var good := !bits.overflow && !end && Carries(bits.Unread(), ls, s, x);
    ghost var y := if good then Above(0, s, x) else [];
    ghost var f := if good then s.Nb() else Silent;
    ghost var id, tail := NbId(f), if good then NbTail(f) + y else [];
    if good {
      StreamLeads(bits.Unread(), callbacks, ls, s, x);
    } else if !bits.overflow && end && AtEnd(bits.Unread(), ls) {
      id, tail := EndRead(bits.Unread(), callbacks, ls);
    }
    r := NbDecode(bits, callbacks, [], ls, id, tail, f, y);
  }

  /** Long enough padding reads as a terminator, and shorter runs out. */
  lemma EndRead(stream: seq<bool>, callbacks: map<nat, Handler>, ls: seq<Layer>) returns (id: nat, tail: seq<bool>)
    requires AtEnd(stream, ls)
    ensures RunsOut(stream, ls) || (id == 15 && Leads(stream, callbacks, [], ls, id, tail))
  {
    var p := EndPadding(stream, ls);
    id, tail := 15, [];
    hide *;
    if |p| >= 5 {
      tail := p[5..];
      PaddingBlock(p);
      BlockLeads(callbacks, ls, tail);
    } else {
      PaddingStarts(p);
      ShortEnd(ls, p);
    }
  }

  lemma EndPadding(stream: seq<bool>, ls: seq<Layer>) returns (p: seq<bool>)
    requires AtEnd(stream, ls)
    ensures LayersOk(ls) && stream == LayersBits(ls) + p && IsPadding(p)
  {
    hide LayerOk, LayersBits, IsPadding;
    p := stream[|LayersBits(ls)|..];
  }

  lemma PaddingStarts(p: seq<bool>)
    requires IsPadding(p)
    ensures Low(p)
  {}

  lemma BlockLeads(callbacks: map<nat, Handler>, ls: seq<Layer>, tail: seq<bool>)
    requires LayersOk(ls)
    ensures Leads(LayersBits(ls) + Block(15, tail), callbacks, [], ls, 15, tail)
  {
    hide LayersOk, LayersBits, Block;
  }

  lemma PaddingBlock(p: seq<bool>)
    requires IsPadding(p) && |p| >= 5
    ensures p == Block(15, p[5..])
  {
    assert BitFields.Field(15, 4) == [true, true, true, true] by {
      assert BitFields.Field(15, 1) == [true] && BitFields.Field(1, 1) == [true];
      assert BitFields.Field(3, 2) == [true, true] && BitFields.Field(7, 3) == [true, true, true];
    }
    SingleBits();
    hide BitFields.Field;
    assert p == [false] + ([true, true, true, true] + p[5..]);
  }

  lemma ShortEnd(ls: seq<Layer>, p: seq<bool>)
    requires LayersOk(ls) && |p| < 5 && Low(p)
    ensures RunsOut(LayersBits(ls) + p, ls)
  {
    hide LayerBits, LayerOk, LayersBits, Low;
    AheadLength(ls);
    NothingSkipped();
    if ls == [] {
      assert [] + p == p;
    } else {
      Dropped(LayerBits(ls[0]), LayersBits(ls[1..]), p, LayersBits(ls) + p);
      ShortRest(ls[1..], p);
    }
  }

  lemma ShortRest(ls: seq<Layer>, p: seq<bool>)
    requires LayersOk(ls) && |ls| <= 1 && |p| < 5 && Low(p)
    ensures ShortBehind(LayersBits(ls) + p, ls)
  {
    hide LayerBits, LayerOk, LayersBits, Low;
    AheadLength(ls);
    NothingSkipped();
    if ls == [] {
      assert [] + p == p;
    } else {
      assert ls[1..] == [];
      Dropped(LayerBits(ls[0]), [], p, LayersBits(ls) + p);
      assert [] + p == p;
    }
  }

  /** The layer on top of what the lower level heard. */
  method DecodeHigh(level: nat, bits: SpeexBits, low: Heard, ghost s: Sound, ghost x: seq<bool>, ghost good: bool)
    returns (r: Heard)
    requires bits.Valid() && level >= 1 && low.Frame?
    requires good ==> Low(x) && Reported(level - 1, s, x, low, bits)
    modifies bits
    ensures bits.Valid() && bits.chars == old(bits.chars) && bits.Contents() == old(bits.Contents())
    ensures good ==> Reported(level, s, x, r, bits)
  {
    hide Bits, LayerOk, LayersBits, LayerBits, Sound.Ok, Sound.Nb, Expected, Left, Starts, Low, Above;
    ghost var rest := Left(level - 1, s.layers);
    ghost var f := if rest != [] then rest[0] else NullLayer;
    ghost var y := if good then Above(level, s, x) else [];
    if good {
      NextLayer(level, s, bits.Unread(), x);
    }
    var layer := DecodeLayer(bits, MaxId(level), f, y);
    if layer.Bad? {
      r := Failed(-2);
      return;
    }
    r := Frame(low.nb, low.layers + [if layer.Got? then layer.f else NullLayer]);
    if good {
      ExpectedGrows(level, s, low, f);
    }
  }

  lemma ExpectedGrows(level: nat, s: Sound, low: Heard, f: Layer)
    requires level >= 1 && s.Ok() && low == Expected(level - 1, s)
    requires f == if Left(level - 1, s.layers) != [] then Left(level - 1, s.layers)[0] else NullLayer
    ensures Frame(low.nb, low.layers + [f]) == Expected(level, s)
  {
    hide Sound.Ok, Sound.Nb;
  }

  /** What follows once a decoder of the level has read its layers. */
  function Above(level: nat, s: Sound, x: seq<bool>): seq<bool>
    requires s.Ok()
  {
    LayersBits(Left(level, s.layers)) + x
  }

  /** Skippable layers, then everything a sound puts in the stream. */
  predicate LayersAre(stream: seq<bool>, ls: seq<Layer>, s: Sound, x: seq<bool>)
    requires s.Ok() && NbOk(s.Nb())
  {
    LayersOk(ls) && stream == LayersBits(ls) + (NbBits(s.Nb()) + Above(0, s, x))
  }

  lemma StreamLeads(stream: seq<bool>, callbacks: map<nat, Handler>, ls: seq<Layer>, s: Sound, x: seq<bool>)
    requires s.Ok() && NbOk(s.Nb()) && LayersAre(stream, ls, s, x)
    ensures Leads(stream, callbacks, [], ls, NbId(s.Nb()), NbTail(s.Nb()) + Above(0, s, x))
  {
    var f := s.Nb();
    TailLength(f);
    hide LayersBits, NbOk, NbTail, LayerOk, Analysis.Sent, Sound.Ok, Sound.Nb, Above;
    Regroup(FrameStreamHead(), IdField(f), NbTail(f), Above(0, s, x));
  }

  function FrameStreamHead(): seq<bool> { BitFields.Field(0, 1) }

  function IdField(f: NbFrame): seq<bool> { BitFields.Field(NbId(f), NB_SUBMODE_BITS) }

  lemma NextLayer(level: nat, s: Sound, stream: seq<bool>, x: seq<bool>)
    requires level >= 1 && s.Ok() && Low(x) && stream == Above(level - 1, s, x)
    ensures Left(level - 1, s.layers) == [] ==> Low(stream) && stream == Above(level, s, x)
    ensures Left(level - 1, s.layers) != [] ==>
      Starts(stream, MaxId(level), Left(level - 1, s.layers)[0], Above(level, s, x))
  {
    var rest := Left(level - 1, s.layers);
    hide LayerOk, LayerBits, Analysis.Ok;
    if rest == [] {
      assert LayersBits([]) == [];
    } else {
      assert rest[1..] == Left(level, s.layers);
      Gather2(LayerBits(rest[0]), LayersBits(rest[1..]), x);
    }
  }

  // ----- whole streams -----

  lemma FirstNull(level: nat, s: Sound) returns (i: nat)
    requires s.Ok() && !Skippable(level, s.layers)
    ensures |Left(level, s.layers)| <= 2
    ensures forall k :: 0 <= k < |Left(level, s.layers)| ==> LayerOk(Left(level, s.layers)[k])
    ensures i < |Left(level, s.layers)| && Left(level, s.layers)[i].NullLayer?
  {
    hide LayerOk, Analysis.Ok;
    i :| i < |s.layers| - level && s.layers[level + i].NullLayer?;
  }

  /** What Skippable leaves out does fail: in front of a null layer the decoder left unread, the next call of any level
      reports a corrupted stream. */
  lemma NullLayerStops(level: nat, s: Sound, x: seq<bool>)
    requires s.Ok() && !Skippable(level, s.layers) && x != []
    ensures NullAhead(Above(level, s, x), Left(level, s.layers))
  {
    var left := Left(level, s.layers);
    var i := FirstNull(level, s);
    hide *;
    NullComes(left, i, x);
  }

  predicate AllOk(sounds: seq<Sound>) {
    forall i :: 0 <= i < |sounds| ==> sounds[i].Ok() && NbOk(sounds[i].Nb())
  }

  /** Everything one sound puts in the stream. */
  function SoundBits(s: Sound): seq<bool>
    requires s.Ok() && NbOk(s.Nb())
  {
    NbBits(s.Nb()) + LayersBits(s.layers)
  }

  /** All sounds from number i on, then the end of the packet. */
  function From(sounds: seq<Sound>, i: nat, end: seq<bool>): seq<bool>
    requires AllOk(sounds) && i <= |sounds|
    decreases |sounds| - i
  {
    if i == |sounds| then end else SoundBits(sounds[i]) + From(sounds, i + 1, end)
  }

  lemma {:induction false} FromEnd(sounds: seq<Sound>, i: nat, end: seq<bool>)
    requires AllOk(sounds) && i <= |sounds|
    ensures From(sounds, i, end) == From(sounds, i, []) + end
    decreases |sounds| - i
  {
    hide SoundBits, NbOk, Sound.Ok, Sound.Nb;
    if i < |sounds| {
      FromEnd(sounds, i + 1, end);
      Gather2(SoundBits(sounds[i]), From(sounds, i + 1, []), end);
    }
  }

  /** Every continuation starts with a zero bit, or is empty: that is how a missing layer is noticed. */
  lemma FromLow(sounds: seq<Sound>, i: nat, end: seq<bool>)
    requires AllOk(sounds) && i <= |sounds| && Low(end)
    ensures Low(From(sounds, i, end))
  {
    if i < |sounds| {
      hide NbTail, NbOk, LayersBits, Sound.Ok, Sound.Nb, BitFields.Field, From;
      SingleBits();
      FromStep(sounds, i, end);
    }
  }

  lemma FromStep(sounds: seq<Sound>, i: nat, end: seq<bool>)
    requires AllOk(sounds) && i < |sounds|
    ensures From(sounds, i, end) == SoundBits(sounds[i]) + From(sounds, i + 1, end)
  {}

  lemma LayersStep(layers: seq<Layer>, i: nat)
    requires (forall k :: 0 <= k < |layers| ==> LayerOk(layers[k])) && i < |layers|
    ensures LayersBits(layers[i..]) == LayerBits(layers[i]) + LayersBits(layers[i + 1..])
  {
    assert layers[i..][1..] == layers[i + 1..];
  }

  /** The encoder of a sound: nb_encode, then sb_encode for each layer. */
  method EncodeSound(bits: SpeexBits, s: Sound)
    requires bits.Writing() && bits.owner && s.Ok()
    modifies bits, bits.chars
    ensures bits.Writing() && bits.owner && (bits.chars == old(bits.chars) || fresh(bits.chars))
    ensures NbOk(s.Nb()) && bits.Contents() == old(bits.Contents()) + SoundBits(s)
  {
    ghost var before := bits.Contents();
    assert s.a.Ok() && forall k :: 0 <= k < |s.layers| ==> LayerOk(s.layers[k]);
    assert s.Nb() == s.a.Sent();
    hide *;
    ghost var frame := NbEncode(bits, s.a);
    EncodeLayers(bits, s.layers);
    Gather2(before, NbBits(s.Nb()), LayersBits(s.layers));
    SoundIs(s);
  }

  method EncodeLayers(bits: SpeexBits, layers: seq<Layer>)
    requires bits.Writing() && bits.owner && forall k :: 0 <= k < |layers| ==> LayerOk(layers[k])
    modifies bits, bits.chars
    ensures bits.Writing() && bits.owner && (bits.chars == old(bits.chars) || fresh(bits.chars))
    ensures bits.Contents() == old(bits.Contents()) + LayersBits(layers)
  {
    hide Bits, Clear, LayerOk, LayerBits, LayersBits, LayerPlaced;
    ghost var before, all := bits.Contents(), LayersBits(layers);
    assert layers[0..] == layers;
    for i := 0 to |layers|
      invariant bits.Writing() && bits.owner && (bits.chars == old(bits.chars) || fresh(bits.chars))
      invariant before + all == bits.Contents() + LayersBits(layers[i..])
    {
      LayersStep(layers, i);
      ghost var now := bits.Contents();
      SbEncode(bits, layers[i]);
      Gather2(now, LayerBits(layers[i]), LayersBits(layers[i + 1..]));
    }
    NoLayers(layers);
  }

  lemma SoundIs(s: Sound)
    requires s.Ok() && NbOk(s.Nb())
    ensures SoundBits(s) == NbBits(s.Nb()) + LayersBits(s.layers)
  {}

  lemma NoLayers(layers: seq<Layer>)
    ensures LayersBits(layers[|layers|..]) == []
  {}

  /** An encoder session: the packet holds the bits of every sound in order, then the padding. */
  method Transmit(sounds: seq<Sound>) returns (packet: array<bv8>)
    requires forall i :: 0 <= i < |sounds| ==> sounds[i].Ok()
    ensures fresh(packet) && AllOk(sounds)
    ensures var n := |From(sounds, 0, [])|; Bits(packet[..], 8 * packet.Length) == From(sounds, 0, Padding(n))
  {
    AllSentOk(sounds);
    hide *;
    var bits := new SpeexBits.Init();
    ghost var all := From(sounds, 0, []);
    for i := 0 to |sounds|
      invariant fresh(bits) && fresh(bits.chars) && bits.Writing() && bits.owner
      invariant all == bits.Contents() + From(sounds, i, [])
    {
      SoundIsOk(sounds, i);
      FromStep(sounds, i, []);
      TransmitOne(bits, sounds[i], From(sounds, i + 1, []));
    }
    NothingFrom(sounds);
    packet := Finish(bits, all);
    FromEnd(sounds, 0, Padding(|all|));
  }

  method TransmitOne(bits: SpeexBits, s: Sound, ghost rest: seq<bool>)
    requires bits.Writing() && bits.owner && s.Ok()
    modifies bits, bits.chars
    ensures bits.Writing() && bits.owner && (bits.chars == old(bits.chars) || fresh(bits.chars)) && NbOk(s.Nb())
    ensures bits.Contents() + rest == old(bits.Contents()) + (SoundBits(s) + rest)
  {
    hide Bits, Clear, SoundBits, NbOk, Sound.Ok, Sound.Nb;
    ghost var now := bits.Contents();
    EncodeSound(bits, s);
    Gather2(now, SoundBits(s), rest);
  }

  method Finish(bits: SpeexBits, ghost all: seq<bool>) returns (packet: array<bv8>)
    requires bits.Writing() && bits.owner && bits.Contents() == all
    modifies bits, bits.chars
    ensures fresh(packet) && Bits(packet[..], 8 * packet.Length) == all + Padding(|all|)
  {
    hide Bits, Clear, Padding;
    ghost var whole := all + Padding(|all|);
    assert whole[..|whole|] == whole;
    packet := bits.Write(bits.nbBits + 1);
  }

  lemma NothingFrom(sounds: seq<Sound>)
    requires AllOk(sounds)
    ensures From(sounds, |sounds|, []) == []
  {}

  lemma SoundIsOk(sounds: seq<Sound>, i: nat)
    requires AllOk(sounds) && i < |sounds|
    ensures sounds[i].Ok() && NbOk(sounds[i].Nb())
  {}

  lemma AllSentOk(sounds: seq<Sound>)
    requires forall i :: 0 <= i < |sounds| ==> sounds[i].Ok()
    ensures AllOk(sounds)
  {
    forall i | 0 <= i < |sounds|
      ensures NbOk(sounds[i].Nb())
    {
      sounds[i].a.SentOk();
    }
  }

  /** What a decoder of the level leaves in front of sound i. */
  ghost function Before(sounds: seq<Sound>, level: nat, i: nat): seq<Layer>
    requires i <= |sounds|
  {
    if i == 0 then [] else Left(level, sounds[i - 1].layers)
  }

  lemma PaddingLow(n: nat)
    ensures Low(Padding(n))
  {}

  lemma NoneBefore(sounds: seq<Sound>, level: nat)
    ensures Before(sounds, level, 0) == [] && LayersOk([]) && LayersBits([]) == []
  {}

  lemma SoundCarried(stream: seq<bool>, sounds: seq<Sound>, i: nat, ls: seq<Layer>, end: seq<bool>)
    requires AllOk(sounds) && i < |sounds| && LayersOk(ls) && Low(From(sounds, i + 1, end))
    requires stream == LayersBits(ls) + From(sounds, i, end)
    ensures Carries(stream, ls, sounds[i], From(sounds, i + 1, end))
  {
    SoundIsOk(sounds, i);
    FromStep(sounds, i, end);
    hide From, AllOk, NbOk, Sound.Ok, Sound.Nb, LayersBits, Low;
    var s := sounds[i];
    assert Left(0, s.layers) == s.layers;
    Gather2(NbBits(s.Nb()), LayersBits(s.layers), From(sounds, i + 1, end));
  }

  lemma AfterDecode(sounds: seq<Sound>, level: nat, i: nat, r: Heard, bits: SpeexBits, x: seq<bool>)
    requires i < |sounds| && sounds[i].Ok() && Reported(level, sounds[i], x, r, bits)
    ensures r == Expected(level, sounds[i]) && bits.Valid() && !bits.overflow
    ensures LayersFit(Before(sounds, level, i + 1)) && bits.Unread() == LayersBits(Before(sounds, level, i + 1)) + x
  {
    hide Expected, LayersBits, LayerOk, Analysis.Ok;
  }

  lemma PaddingIs(n: nat)
    ensures IsPadding(Padding(n)) && (Padding(n) == [] <==> n % 8 == 0)
  {
    var r := n % 8;
    assert |Padding(n)| == if r == 0 then 0 else 8 - r;
    assert (8 - |Padding(n)|) % 8 == r;
  }

  /** The stream as a decoder of the level finds it before sound i. */
  ghost predicate AtSound(stream: seq<bool>, sounds: seq<Sound>, level: nat, i: nat, end: seq<bool>)
    requires AllOk(sounds) && i <= |sounds|
  {
    LayersFit(Before(sounds, level, i)) && stream == LayersBits(Before(sounds, level, i)) + From(sounds, i, end)
  }

  predicate LayersFit(ls: seq<Layer>) { |ls| <= 2 && forall i :: 0 <= i < |ls| ==> LayerOk(ls[i]) }

  /** Nothing in front of sound i stops the scan. */
  predicate WayFree(sounds: seq<Sound>, level: nat, i: nat)
    requires i <= |sounds|
  {
    i > 0 ==> Skippable(level, sounds[i - 1].layers)
  }

  lemma BeforeSkips(sounds: seq<Sound>, level: nat, i: nat)
    requires i <= |sounds| && WayFree(sounds, level, i) && LayersFit(Before(sounds, level, i))
    ensures LayersOk(Before(sounds, level, i))
  {
    hide LayerOk;
  }

  lemma BeforeStops(stream: seq<bool>, sounds: seq<Sound>, level: nat, i: nat, end: seq<bool>)
    requires AllOk(sounds) && i <= |sounds| && AtSound(stream, sounds, level, i, end)
    requires !WayFree(sounds, level, i) && From(sounds, i, end) != []
    ensures NullAhead(stream, Before(sounds, level, i))
  {
    SoundIsOk(sounds, i - 1);
    hide NullAhead, Skippable, From, AllOk, Sound.Ok, Sound.Nb, Left;
    NullLayerStops(level, sounds[i - 1], From(sounds, i, end));
  }

  lemma MoreToCome(sounds: seq<Sound>, i: nat, end: seq<bool>)
    requires AllOk(sounds) && i < |sounds|
    ensures From(sounds, i, end) != []
  {
    SoundIsOk(sounds, i);
    FromStep(sounds, i, end);
    assert |BitFields.Field(0, 1)| == 1;
    hide From, AllOk, NbOk, Sound.Ok, Sound.Nb, LayersBits, NbTail;
    assert |NbBits(sounds[i].Nb())| > 0;
  }

  predicate AllHeard(heard: seq<Heard>, sounds: seq<Sound>, level: nat) {
    |heard| == |sounds| && forall i :: 0 <= i < |sounds| ==> sounds[i].Ok() && heard[i] == Expected(level, sounds[i])
  }

  lemma NoneHeard(level: nat)
    ensures AllHeard([], [], level)
  {}

  lemma OneMoreHeard(heard: seq<Heard>, sounds: seq<Sound>, i: nat, level: nat, r: Heard)
    requires i < |sounds| && AllHeard(heard, sounds[..i], level) && sounds[i].Ok() && r == Expected(level, sounds[i])
    ensures AllHeard(heard + [r], sounds[..i + 1], level)
  {
    hide Expected, Sound.Ok;
    assert sounds[..i + 1] == sounds[..i] + [sounds[i]];
  }

  /** What was heard of a sound: every field of its frame as the analysis decided it, and its layers, with null layers
      for those that are missing. */
  ghost predicate HeardOf(r: Heard, s: Sound, level: nat) {
    && r.Frame? && Means(r.nb, s.a) && |r.layers| == level
    && forall k :: 0 <= k < level ==> r.layers[k] == if k < |s.layers| then s.layers[k] else NullLayer
  }

  lemma AllHeardOf(heard: seq<Heard>, sounds: seq<Sound>, level: nat, i: nat)
    requires |heard| <= |sounds| && AllHeard(heard, sounds[..|heard|], level) && i < |heard|
    ensures HeardOf(heard[i], sounds[i], level)
  {
    var s := sounds[..|heard|][i];
    assert s.Ok() && heard[i] == Expected(level, s);
    SentMeans(s.a);
    hide Means, Analysis.Sent, Analysis.Ok;
  }

  lemma AtFirst(sounds: seq<Sound>, level: nat, end: seq<bool>)
    requires AllOk(sounds)
    ensures AtSound(From(sounds, 0, end), sounds, level, 0, end)
  {
    NoneBefore(sounds, level);
    hide From, AllOk;
  }

  /** The calls of a session. */
  method Calls(packet: array<bv8>, level: nat, n: nat, callbacks: map<nat, Handler>, ghost sounds: seq<Sound>)
    returns (heard: seq<Heard>, last: Heard)
    requires AllOk(sounds) && n == |sounds|
    requires var end := Padding(|From(sounds, 0, [])|); Bits(packet[..], 8 * packet.Length) == From(sounds, 0, end)
    requires forall id :: id in callbacks ==> callbacks[id].taken <= 32
    ensures |heard| <= n && AllHeard(heard, sounds[..|heard|], level)
    ensures forall i :: 0 <= i < |heard| ==> WayFree(sounds, level, i)
    ensures |heard| < n ==> !WayFree(sounds, level, |heard|)
    ensures last
      == Failed(if |heard| < n || Stuck(Before(sounds, level, n), |From(sounds, 0, [])| % 8 != 0) then -2 else -1)
  {
    hide *;
    ghost var k := |From(sounds, 0, [])|;
    ghost var end := Padding(k);
    PaddingLow(k);
    var bits := Open(packet, From(sounds, 0, end));
    heard := [];
    AtFirst(sounds, level, end);
    NoneHeard(level);
    assert sounds[..0] == [];
    for i := 0 to n
      invariant fresh(bits) && bits.Valid() && !bits.overflow && AtSound(bits.Unread(), sounds, level, i, end)
      invariant |heard| == i && AllHeard(heard, sounds[..i], level)
      invariant forall j :: 0 <= j < i ==> WayFree(sounds, level, j)
    {
      var r := ReceiveOne(bits, level, callbacks, sounds, i, end);
      if r.Failed? {
        last := r;
        return;
      }
      OneMoreHeard(heard, sounds, i, level, r);
      heard := heard + [r];
    }
    last := ReceiveEnd(bits, level, callbacks, sounds, k);
  }

  /** A decoder session of any level on any run of frames. Every call reports what was sent, up to and including the
      first frame with a null layer above the level; the call after that reports a corrupted stream. The call after the
      last frame does so if a null layer was left unread with anything behind it, and else finds the end of the
      packet. */
  method Receive(packet: array<bv8>, level: nat, n: nat, callbacks: map<nat, Handler>, ghost sounds: seq<Sound>)
    returns (heard: seq<Heard>, last: Heard)
    requires AllOk(sounds) && n == |sounds|
    requires var end := Padding(|From(sounds, 0, [])|); Bits(packet[..], 8 * packet.Length) == From(sounds, 0, end)
    requires forall id :: id in callbacks ==> callbacks[id].taken <= 32
    ensures |heard| <= n && AllHeard(heard, sounds[..|heard|], level)
    ensures forall i :: 0 <= i < |heard| ==> HeardOf(heard[i], sounds[i], level)
    ensures forall i :: 0 <= i < |heard| ==> WayFree(sounds, level, i)
    ensures |heard| < n ==> !WayFree(sounds, level, |heard|)
    ensures last
      == Failed(if |heard| < n || Stuck(Before(sounds, level, n), |From(sounds, 0, [])| % 8 != 0) then -2 else -1)
  {
    heard, last := Calls(packet, level, n, callbacks, sounds);
    hide *;
    forall i | 0 <= i < |heard|
      ensures HeardOf(heard[i], sounds[i], level)
    {
      AllHeardOf(heard, sounds, level, i);
    }
  }

  /** A reader on the packet. */
  method Open(packet: array<bv8>, ghost stream: seq<bool>) returns (bits: SpeexBits)
    requires Bits(packet[..], 8 * packet.Length) == stream
    ensures fresh(bits) && bits.Valid() && !bits.overflow && bits.Unread() == stream
  {
    hide Bits;
    bits := new SpeexBits.Init();
    bits.ReadFrom(packet);
    assert packet[..packet.Length] == packet[..];
    assert bits.Unread() == bits.Contents();
  }

  /** A null layer, with something behind it. */
  predicate Stuck(ls: seq<Layer>, more: bool) {
    exists i :: 0 <= i < |ls| && ls[i].NullLayer? && (i + 1 < |ls| || more)
  }

  /** The call after the last frame. */
  method ReceiveEnd(bits: SpeexBits, level: nat, callbacks: map<nat, Handler>, ghost sounds: seq<Sound>, ghost k: nat)
    returns (last: Heard)
    requires AllOk(sounds) && bits.Valid() && !bits.overflow
    requires AtSound(bits.Unread(), sounds, level, |sounds|, Padding(k))
    requires forall id :: id in callbacks ==> callbacks[id].taken <= 32
    modifies bits
    ensures last == Failed(if Stuck(Before(sounds, level, |sounds|), k % 8 != 0) then -2 else -1)
  {
    hide *;
    ghost var ls := Before(sounds, level, |sounds|);
    EndCases(bits.Unread(), sounds, level, k);
    last := Decode(level, bits, callbacks, ls, Sound(Quiet, []), [], !Stuck(ls, k % 8 != 0));
  }

  lemma EndCases(stream: seq<bool>, sounds: seq<Sound>, level: nat, k: nat)
    requires AllOk(sounds) && AtSound(stream, sounds, level, |sounds|, Padding(k))
    ensures var ls := Before(sounds, level, |sounds|);
      if Stuck(ls, k % 8 != 0) then NullAhead(stream, ls) else AtEnd(stream, ls) || RunsOut(stream, ls)
  {
    var ls, p := Before(sounds, level, |sounds|), Padding(k);
    PaddingIs(k);
    assert LayersFit(ls) && stream == LayersBits(ls) + p by {
      hide AllOk, Padding, Before, LayersFit, LayersBits;
    }
    hide *;
    if Stuck(ls, k % 8 != 0) {
      StuckEnd(ls, p, k % 8 != 0);
    } else {
      FreeEnd(ls, p, k % 8 != 0);
    }
  }

  lemma StuckEnd(ls: seq<Layer>, p: seq<bool>, more: bool)
    requires LayersFit(ls) && Stuck(ls, more) && (more <==> p != [])
    ensures NullAhead(LayersBits(ls) + p, ls)
  {
    var i :| 0 <= i < |ls| && ls[i].NullLayer? && (i + 1 < |ls| || more);
    hide LayerOk, LayersBits, NullAhead;
    NullComes(ls, i, p);
  }

  lemma FreeEnd(ls: seq<Layer>, p: seq<bool>, more: bool)
    requires LayersFit(ls) && !Stuck(ls, more) && (more <==> p != []) && IsPadding(p)
    ensures AtEnd(LayersBits(ls) + p, ls) || RunsOut(LayersBits(ls) + p, ls)
  {
    hide LayerOk, LayersBits, RunsOut, IsPadding;
    if i :| 0 <= i < |ls| && ls[i].NullLayer? {
      assert p == [] && i + 1 == |ls|;
      NullLast(ls);
      assert LayersBits(ls) + [] == LayersBits(ls);
    } else {
      assert (LayersBits(ls) + p)[|LayersBits(ls)|..] == p;
    }
  }

  /** A null layer at the very end is too short to be looked at. */
  lemma NullLast(ls: seq<Layer>)
    requires LayersFit(ls) && ls != [] && ls[|ls| - 1].NullLayer? && (|ls| == 2 ==> ls[0].Layer?)
    ensures RunsOut(LayersBits(ls), ls)
  {
    NullLength();
    hide LayerBits, LayerOk, LayersBits;
    AheadLength(ls);
    if |ls| == 1 {
      assert ls[1..] == [];
      NothingSkipped();
    } else {
      JustNull(ls[1..]);
      assert LayersBits(ls)[|LayerBits(ls[0])|..] == LayersBits(ls[1..]);
    }
  }

  lemma NullLength()
    ensures |LayerBits(NullLayer)| == 4
  {
    LayerLength(NullLayer);
  }

  lemma JustNull(ls: seq<Layer>)
    requires LayersFit(ls) && |ls| == 1 && ls[0].NullLayer?
    ensures |LayersBits(ls)| == 4
  {
    NullLength();
    NothingSkipped();
    hide LayerBits, LayerOk;
    assert ls[1..] == [];
  }

  method ReceiveOne(bits: SpeexBits, level: nat, callbacks: map<nat, Handler>, ghost sounds: seq<Sound>, ghost i: nat,
                    ghost end: seq<bool>)
    returns (r: Heard)
    requires AllOk(sounds) && i < |sounds| && Low(end)
    requires bits.Valid() && !bits.overflow && forall id :: id in callbacks ==> callbacks[id].taken <= 32
    requires AtSound(bits.Unread(), sounds, level, i, end)
    modifies bits
    ensures bits.Valid() && sounds[i].Ok()
    ensures r.Failed? <==> !WayFree(sounds, level, i)
    ensures r.Failed? ==> r == Failed(-2)
    ensures r.Frame? ==>
      r == Expected(level, sounds[i]) && !bits.overflow && AtSound(bits.Unread(), sounds, level, i + 1, end)
  {
    hide Bits, SoundBits, NbOk, Sound.Ok, Sound.Nb, Expected, Low, AllOk, Left, Skippable, Above, Before, LayersOk;
    hide LayersBits, From;
    hide Carries, Reported, WayFree, NullAhead, LayersFit;
    ghost var ls, x := Before(sounds, level, i), From(sounds, i + 1, end);
    SoundIsOk(sounds, i);
    FromLow(sounds, i + 1, end);
    if WayFree(sounds, level, i) {
      BeforeSkips(sounds, level, i);
      SoundCarried(bits.Unread(), sounds, i, ls, end);
    } else {
      MoreToCome(sounds, i, end);
      BeforeStops(bits.Unread(), sounds, level, i, end);
    }
    r := Decode(level, bits, callbacks, ls, sounds[i], x, false);
    if WayFree(sounds, level, i) {
      NotFailed(level, sounds[i], x, r, bits);
      AfterDecode(sounds, level, i, r, bits, x);
    }
  }
}
