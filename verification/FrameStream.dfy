/** Finding the next narrowband block (the do-while scan of nb_decode, with the in-band handlers of speex_callbacks.c),
    decoding layers on top of it (sb_decode), and whole streams of frames. */
module FrameStream {
  import opened BitFields
  import opened BitStream
  import opened ByteBits
  import opened FrameChoices
  import opened FrameCodec
  import opened FrameSyntax
  import opened Wrappers

  // ----- skipping wideband layers -----

  /** wb_skip_table */
  function SkipTable(submode: nat): int {
    if submode == 1 then 36
    else if submode == 2 then 112
    else if submode == 3 then 192
    else if submode == 4 then 352
    else 0
  }

  /** The table is the layers' lengths, so skipping lands on whatever follows; a null layer has length four instead. */
  lemma SkipIsLength(f: Layer)
    requires LayerOk(f)
    ensures SkipTable(LayerId(f)) == |LayerBits(f)| <==> f.Layer?
    ensures f.NullLayer? ==> SkipTable(LayerId(f)) - (SB_SUBMODE_BITS + 1) == -4
  {
    LayerLength(f);
  }

  /** A null layer, with something behind it. */
  ghost predicate NullStart(stream: seq<bool>) { |stream| >= 5 && stream[..4] == LayerBits(NullLayer) }

  lemma NullHeader(rest: seq<bool>)
    requires NullStart([true] + rest)
    ensures |rest| >= 4 && Value(rest[..3]) == 0
  {
    var stream := [true] + rest;
    assert stream == stream[..4] + stream[4..];
    LayerHeader(NullLayer, stream[4..], rest);
  }

  lemma NullStartsSet(stream: seq<bool>)
    requires NullStart(stream)
    ensures stream[0] && stream == [true] + stream[1..]
  {
    LayerStartsSet(NullLayer);
    hide LayerBits;
    assert stream[0] == stream[..4][0];
  }

  /** The first of the layers can be skipped. */
  ghost predicate Skips(stream: seq<bool>, ls: seq<Layer>) {
    ls != [] && LayerOk(ls[0]) && ls[0].Layer? && LayerBits(ls[0]) <= stream
  }

  ghost function Skipped(stream: seq<bool>, ls: seq<Layer>): seq<bool>
    requires Skips(stream, ls)
  {
    stream[|LayerBits(ls[0])|..]
  }

  /** A null layer comes first, or behind one that can be skipped. */
  ghost predicate NullAhead(stream: seq<bool>, ls: seq<Layer>) {
    NullStart(stream) || (Skips(stream, ls) && NullStart(Skipped(stream, ls)))
  }

  /** Too few bits for a block are left, at once or behind one or two layers. */
  ghost predicate RunsOut(stream: seq<bool>, ls: seq<Layer>) {
    |stream| < 5 || (Skips(stream, ls) && ShortBehind(Skipped(stream, ls), ls[1..]))
  }

  ghost predicate ShortBehind(stream: seq<bool>, ls: seq<Layer>) {
    |stream| < 5 || (Skips(stream, ls) && |Skipped(stream, ls)| < 5 && Low(Skipped(stream, ls)))
  }

  /** After the wideband bit: read the sub-mode and jump. */
  method SkipLayer(bits: SpeexBits, ghost f: Layer, ghost x: seq<bool>)
    requires bits.Valid() && !bits.overflow && bits.Pos() >= 1 && |bits.Unread()| >= 3
    modifies bits
    ensures bits.Valid() && bits.chars == old(bits.chars) && bits.Contents() == old(bits.Contents())
    ensures bits.Pos() >= old(bits.Pos()) - 1
    ensures LayerOk(f) && f.Layer? && [true] + old(bits.Unread()) == LayerBits(f) + x ==>
      !bits.overflow && bits.Unread() == x
    ensures NullStart([true] + old(bits.Unread())) ==> !bits.overflow && bits.Pos() == old(bits.Pos()) - 1
  {
    hide Bits, Field, LayerOk, LayerTail, Value;
    ghost var rest, at := bits.Unread(), bits.Pos();
    if NullStart([true] + rest) {
      NullHeader(rest);
      assert rest[..3] == bits.Contents()[at..at + 3];
    }
    var submode := bits.UnpackUnsigned(SB_SUBMODE_BITS);
    bits.Advance(SkipTable(submode) - (SB_SUBMODE_BITS + 1));
    if LayerOk(f) && f.Layer? && [true] + rest == LayerBits(f) + x {
      LayerHeader(f, x, rest);
      assert rest[..3] == bits.Contents()[at..at + 3];
      SkipIsLength(f);
      assert rest[|LayerBits(f)| - 1..] == x;
    }
  }

  lemma LayerHeader(f: Layer, x: seq<bool>, rest: seq<bool>)
    requires LayerOk(f) && [true] + rest == LayerBits(f) + x && |rest| >= 3
    ensures Value(rest[..3]) == LayerId(f)
    ensures |LayerBits(f)| >= 4 && |rest| == |LayerBits(f)| + |x| - 1
    ensures rest[|LayerBits(f)| - 1..] == x
  {
    LayerIdInWidth(f);
    hide LayerOk, LayerTail;
    var id := Field(LayerId(f), SB_SUBMODE_BITS);
    assert Field(1, 1) == [true] by {
      assert Field(0, 0) == [];
    }
    FieldValueInRange(LayerId(f), SB_SUBMODE_BITS);
    hide Field, Value, InWidth;
    Regroup([true], id, LayerTail(f), x);
    assert [true] + rest == [true] + (id + (LayerTail(f) + x));
    assert rest == ([true] + rest)[1..] == id + (LayerTail(f) + x);
    assert rest[..3] == id;
    assert ([true] + rest)[|LayerBits(f)|..] == x;
    assert rest[|LayerBits(f)| - 1..] == ([true] + rest)[|LayerBits(f)|..];
  }

  /** Layers, one after the other. */
  function LayersBits(ls: seq<Layer>): (bits: seq<bool>)
    requires forall i :: 0 <= i < |ls| ==> LayerOk(ls[i])
  {
    if ls == [] then [] else LayerBits(ls[0]) + LayersBits(ls[1..])
  }

  /** The header of a narrowband block, with what follows it. */
  function Block(id: nat, x: seq<bool>): seq<bool> { Field(0, 1) + (Field(id, NB_SUBMODE_BITS) + x) }

  /** Up to two layers with a sub-mode, then a narrowband block. */
  predicate Ahead(stream: seq<bool>, ls: seq<Layer>, id: nat, x: seq<bool>) {
    && |ls| <= 2 && (forall i :: 0 <= i < |ls| ==> LayerOk(ls[i]) && ls[i].Layer?) && id < 16
    && stream == LayersBits(ls) + Block(id, x)
  }

  lemma BlockFieldsSized(id: nat, x: seq<bool>)
    requires id < 16
    ensures |Block(id, x)| == 5 + |x| && !Block(id, x)[0] && Block(id, x)[1..] == Field(id, NB_SUBMODE_BITS) + x
    ensures InWidth(id, NB_SUBMODE_BITS) && Value(Field(id, NB_SUBMODE_BITS)) == id
  {
    WidthFacts();
    assert Field(0, 1) == [false] by {
      assert Field(0, 0) == [];
    }
    FieldValueInRange(id, NB_SUBMODE_BITS);
    hide Field, Value;
  }

  lemma SingleBits()
    ensures Field(0, 1) == [false] && Field(1, 1) == [true]
  {
    assert Field(0, 0) == [];
  }

  lemma LayerStartsSet(f: Layer)
    requires LayerOk(f)
    ensures |LayerBits(f)| >= 4 && LayerBits(f)[0]
  {
    hide LayerOk, LayerTail, Field;
    SingleBits();
  }

  lemma {:induction false} AheadLength(ls: seq<Layer>)
    requires forall i :: 0 <= i < |ls| ==> LayerOk(ls[i])
    ensures ls != [] ==>
      LayersBits(ls) == LayerBits(ls[0]) + LayersBits(ls[1..]) && |LayerBits(ls[0])| >= 4 && LayerBits(ls[0])[0]
  {
    if ls != [] {
      LayerStartsSet(ls[0]);
      hide LayerOk, LayerBits;
    }
  }

  lemma Dropped(b: seq<bool>, y: seq<bool>, z: seq<bool>, stream: seq<bool>)
    requires stream == (b + y) + z
    ensures stream == b + (y + z) && stream[|b|..] == y + z && (|b| > 0 ==> stream[0] == b[0])
  {}

  /** The first of the layers ahead, and what is ahead of it. */
  lemma FirstLayer(stream: seq<bool>, ls: seq<Layer>, id: nat, x: seq<bool>)
    requires Ahead(stream, ls, id, x)
    ensures |stream| >= 5
    ensures ls == [] ==> stream == Block(id, x)
    ensures ls != [] ==> LayerOk(ls[0]) && 4 <= |LayerBits(ls[0])| <= |stream| - 5 && stream[0]
    ensures ls != [] ==>
      var y := stream[|LayerBits(ls[0])|..]; stream == LayerBits(ls[0]) + y && Ahead(y, ls[1..], id, x)
  {
    hide LayerOk, LayerBits, Block;
    BlockFieldsSized(id, x);
    AheadLength(ls);
    hide LayersBits;
    if ls != [] {
      Dropped(LayerBits(ls[0]), LayersBits(ls[1..]), Block(id, x), stream);
    } else {
      NothingSkipped();
    }
  }

  lemma NothingSkipped()
    ensures LayersBits([]) == []
  {}

  // ----- requests -----

  /** A registered callback: it reads some bits and returns a status. */
  datatype Handler = Handler(taken: nat, status: int)

  /** How many bits speex_inband_handler skips when nothing is registered. */
  function InbandSkip(id: nat): nat {
    if id < 2 then 1
    else if id < 8 then 4
    else if id < 10 then 8
    else if id < 12 then 16
    else if id < 14 then 32
    else 64
  }

  /** The lengths of in-band requests, code by code. */
  const REQUEST_BITS: seq<nat> := [1, 1, 4, 4, 4, 4, 4, 4, 8, 8, 16, 16, 32, 32, 64, 64]

  datatype Request = Inband(id: nat, body: seq<bool>) | User(size: nat, body: seq<bool>) {

    /** The body is as long as it should be: what a registered callback takes, or else the length of its code. */
    predicate Sized(callbacks: map<nat, Handler>) {
      match this
      case Inband(id, body) => id < 16 && |body| == if id in callbacks then callbacks[id].taken else REQUEST_BITS[id]
      case User(size, body) => size < 16 && |body| == 5 + 8 * size
    }

    /** What the handler answers. */
    function Answer(callbacks: map<nat, Handler>): int {
      if Inband? && id in callbacks then callbacks[id].status else 0
    }

    /** A request after which the scan goes on. */
    predicate Ok(callbacks: map<nat, Handler>) { Sized(callbacks) && Answer(callbacks) == 0 }

    function Kind(): nat { if Inband? then 14 else 13 }

    function Bits(): seq<bool> { Field(if Inband? then id else size, 4) + body }
  }

  lemma TakeFour(v: nat, x: seq<bool>, stream: seq<bool>)
    requires v < 16 && stream == Field(v, 4) + x
    ensures |stream| == 4 + |x| && Value(stream[..4]) == v && stream[4..] == x
  {
    WidthFacts();
    FieldValueInRange(v, 4);
    hide Field, Value;
    assert stream[..4] == Field(v, 4);
  }

  /** speex_inband_handler: a request nobody handles is skipped to its last bit. */
  method InbandHandler(bits: SpeexBits, callbacks: map<nat, Handler>, ghost req: Request, ghost x: seq<bool>)
    returns (ret: int)
    requires bits.Valid() && forall id :: id in callbacks ==> callbacks[id].taken <= 32
    modifies bits
    ensures bits.Valid() && bits.chars == old(bits.chars) && bits.Contents() == old(bits.Contents())
    ensures bits.Pos() >= old(bits.Pos())
    ensures req.Inband? && req.Sized(callbacks) && !old(bits.overflow) && old(bits.Unread()) == req.Bits() + x ==>
      ret == req.Answer(callbacks) && !bits.overflow && bits.Unread() == x
  {
    hide Bits, Field, Value;
    ghost var rest, at := bits.Unread(), bits.Pos();
    if req.Inband? && req.Sized(callbacks) && rest == req.Bits() + x {
      Gather2(Field(req.id, 4), req.body, x);
      TakeFour(req.id, req.body + x, rest);
      assert bits.Contents()[at..at + 4] == rest[..4];
    }
    var id := bits.UnpackUnsigned(4);
    if id in callbacks {
      var arg := bits.UnpackUnsigned(callbacks[id].taken);
      ret := callbacks[id].status;
    } else {
      bits.Advance(InbandSkip(id));
      ret := 0;
    }
    if req.Inband? && req.Sized(callbacks) && rest == req.Bits() + x {
      assert (req.body + x)[|req.body|..] == x;
    }
  }

  /** speex_default_user_handler */
  method DefaultUserHandler(bits: SpeexBits, callbacks: map<nat, Handler>, ghost req: Request, ghost x: seq<bool>)
    returns (ret: int)
    requires bits.Valid()
    modifies bits
    ensures bits.Valid() && bits.chars == old(bits.chars) && bits.Contents() == old(bits.Contents())
    ensures bits.Pos() >= old(bits.Pos())
    ensures ret == 0
    ensures req.User? && req.Sized(callbacks) && !old(bits.overflow) && old(bits.Unread()) == req.Bits() + x ==>
      !bits.overflow && bits.Unread() == x
  {
    hide Bits, Field, Value;
    ghost var rest, at := bits.Unread(), bits.Pos();
    if req.User? && req.Sized(callbacks) && rest == req.Bits() + x {
      Gather2(Field(req.size, 4), req.body, x);
      TakeFour(req.size, req.body + x, rest);
      assert bits.Contents()[at..at + 4] == rest[..4];
    }
    var size := bits.UnpackUnsigned(4);
    bits.Advance(5 + 8 * size);
    ret := 0;
    if req.User? && req.Sized(callbacks) && rest == req.Bits() + x {
      assert (req.body + x)[|req.body|..] == x;
    }
  }

  // ----- the scan -----

  lemma BitValue(stream: seq<bool>)
    requires |stream| >= 1
    ensures Value(stream[..1]) == if stream[0] then 1 else 0
  {
    assert stream[..1][..0] == [] && Value([]) == 0;
  }

  /** The wideband bit; zero once the stream has run out. */
  method TakeBit(bits: SpeexBits) returns (bit: nat)
    requires bits.Valid()
    modifies bits
    ensures bits.Valid() && bits.chars == old(bits.chars) && bits.Contents() == old(bits.Contents())
    ensures if old(bits.overflow) || old(bits.Unread()) == [] then bits.overflow && bit == 0
      else !bits.overflow && bit == (if old(bits.Unread())[0] then 1 else 0)
    ensures !bits.overflow ==> bits.Pos() == old(bits.Pos()) + 1 && bits.Unread() == old(bits.Unread())[1..]
    ensures bits.Pos() >= old(bits.Pos())
  {
    hide Bits, Value;
    ghost var rest, at := bits.Unread(), bits.Pos();
    bit := bits.UnpackUnsigned(1);
    if rest != [] {
      BitValue(rest);
      assert !bits.overflow ==> bits.Contents()[at..at + 1] == rest[..1];
    }
  }

  ghost function Rest(stream: seq<bool>, ls: seq<Layer>, id: nat, x: seq<bool>): (y: seq<bool>)
    ensures Ahead(stream, ls, id, x) && ls != [] ==>
      stream == LayerBits(ls[0]) + y && Ahead(y, ls[1..], id, x) && |y| >= 5
  {
    if Ahead(stream, ls, id, x) && ls != [] then
      FirstLayer(stream, ls, id, x);
      stream[|LayerBits(ls[0])|..]
    else []
  }

  /** Whether a wideband bit comes first. */
  lemma FirstBit(stream: seq<bool>, ls: seq<Layer>, id: nat, x: seq<bool>)
    requires Ahead(stream, ls, id, x)
    ensures |stream| >= 5 && |ls| <= 2 && stream[0] == (ls != [])
    ensures ls == [] ==> stream[1..] == Field(id, NB_SUBMODE_BITS) + x
    ensures ls != [] ==> LayerOk(ls[0]) && ls[0].Layer?
  {
    FirstLayer(stream, ls, id, x);
    BlockFieldsSized(id, x);
    hide LayerOk, LayerBits, Block, LayersBits;
  }

  /** One layer, its wideband bit already taken. */
  method SkipOne(bits: SpeexBits, ghost stream: seq<bool>, ghost ls: seq<Layer>, ghost id: nat, ghost x: seq<bool>)
    requires bits.Valid() && !bits.overflow && bits.Pos() >= 1 && |bits.Unread()| >= 3
    requires stream == [true] + bits.Unread()
    modifies bits
    ensures bits.Valid() && bits.chars == old(bits.chars) && bits.Contents() == old(bits.Contents())
    ensures bits.Pos() >= old(bits.Pos()) - 1
    ensures Ahead(stream, ls, id, x) ==> ls != [] && !bits.overflow && bits.Unread() == Rest(stream, ls, id, x)
    ensures NullStart(stream) ==> !bits.overflow && bits.Pos() == old(bits.Pos()) - 1
    ensures Skips(stream, ls) ==> !bits.overflow && bits.Unread() == Skipped(stream, ls)
  {
    hide Bits, LayerOk, LayerBits, Ahead, Rest, NullStart;
    ghost var f := if ls == [] then NullLayer else ls[0];
    ghost var y := Rest(stream, ls, id, x);
    if Ahead(stream, ls, id, x) {
      FirstBit(stream, ls, id, x);
      assert Skips(stream, ls) && Skipped(stream, ls) == y;
    } else if Skips(stream, ls) {
      y := Skipped(stream, ls);
      assert stream == LayerBits(f) + y;
    }
    SkipLayer(bits, f, y);
  }

  /** A null layer among the first two. */
  lemma NullComes(ls: seq<Layer>, i: nat, x: seq<bool>)
    requires i < |ls| <= 2 && (forall j :: 0 <= j < |ls| ==> LayerOk(ls[j])) && ls[i].NullLayer?
    requires i + 1 < |ls| || x != []
    ensures NullAhead(LayersBits(ls) + x, ls)
  {
    hide LayerBits, LayersBits, LayerOk, NullStart;
    if ls[0].NullLayer? {
      FirstIsNull(ls, x);
    } else {
      SecondIsNull(ls, x);
    }
  }

  lemma SomeBits(ls: seq<Layer>)
    requires ls != [] && forall j :: 0 <= j < |ls| ==> LayerOk(ls[j])
    ensures LayersBits(ls) != []
  {
    hide *;
    AheadLength(ls);
  }

  lemma FirstIsNull(ls: seq<Layer>, x: seq<bool>)
    requires ls != [] && (forall j :: 0 <= j < |ls| ==> LayerOk(ls[j])) && ls[0].NullLayer? && (|ls| > 1 || x != [])
    ensures NullStart(LayersBits(ls) + x)
  {
    hide *;
    AheadLength(ls);
    if |ls| > 1 {
      SomeBits(ls[1..]);
    }
    Dropped(LayerBits(ls[0]), LayersBits(ls[1..]), x, LayersBits(ls) + x);
    NullFirst(LayersBits(ls[1..]) + x);
  }

  lemma SecondIsNull(ls: seq<Layer>, x: seq<bool>)
    requires |ls| == 2 && (forall j :: 0 <= j < |ls| ==> LayerOk(ls[j])) && ls[1].NullLayer? && x != []
    ensures LayerBits(ls[0]) <= LayersBits(ls) + x && NullStart((LayersBits(ls) + x)[|LayerBits(ls[0])|..])
  {
    hide *;
    AheadLength(ls);
    FirstIsNull(ls[1..], x);
    Dropped(LayerBits(ls[0]), LayersBits(ls[1..]), x, LayersBits(ls) + x);
  }

  lemma NullFirst(y: seq<bool>)
    requires y != []
    ensures NullStart(LayerBits(NullLayer) + y)
  {
    LayerLength(NullLayer);
    hide LayerBits;
  }

  /** A null layer starts with a wideband bit, and skipping it leads back to its start. */
  lemma NullRepeats(stream: seq<bool>, ls: seq<Layer>)
    requires NullAhead(stream, ls)
    ensures |stream| >= 5 && stream[0] && (NullStart(stream) || Skips(stream, ls))
  {
    hide LayerBits, LayerOk;
    if NullStart(stream) {
      NullStartsSet(stream);
    } else {
      SkipStartsSet(stream, ls);
    }
  }

  /** From the second wideband bit on. */
  method SkipSecond(bits: SpeexBits, ghost ls: seq<Layer>, ghost id: nat, ghost x: seq<bool>) returns (status: int)
    requires bits.Valid() && !bits.overflow && |bits.Unread()| >= 5
    modifies bits
    ensures bits.Valid() && bits.chars == old(bits.chars) && bits.Contents() == old(bits.Contents())
    ensures status == 0 || status == -2
    ensures status == 0 && !bits.overflow ==> bits.Pos() >= old(bits.Pos()) + 1
    ensures Ahead(old(bits.Unread()), ls, id, x) && |ls| <= 1 ==>
      status == 0 && !bits.overflow && bits.Unread() == Field(id, NB_SUBMODE_BITS) + x
    ensures NullStart(old(bits.Unread())) ==> status == -2
    ensures ShortBehind(old(bits.Unread()), ls) ==> status == 0 && (bits.overflow || |bits.Unread()| < 4)
  {
    hide Bits, Field, LayerOk, LayerBits, Ahead, Rest, NullStart, Skips, Skipped, ShortBehind;
    ghost var stream, good := bits.Unread(), Ahead(bits.Unread(), ls, id, x) && |ls| <= 1;
    if good {
      FirstBit(stream, ls, id, x);
    }
    if NullStart(stream) {
      NullStartsSet(stream);
    }
    if ShortBehind(stream, ls) {
      ShortGoesOn(stream, ls);
    }
    var wideband := TakeBit(bits);
    if wideband != 0 {
      SkipOne(bits, stream, ls, id, x);
      if good {
        FirstBit(bits.Unread(), ls[1..], id, x);
      }
      wideband := TakeBit(bits);
      if wideband != 0 {
        return -2;
      }
    }
    status := 0;
  }

  /** Up to two layers; after it the cursor stands on the four bits of a block, or the scan is over. A null layer is
      never passed: the scan takes it for a third one. */
  method SkipLayers(bits: SpeexBits, ghost ls: seq<Layer>, ghost id: nat, ghost x: seq<bool>) returns (status: int)
    requires bits.Valid() && !bits.overflow && |bits.Unread()| >= 5
    modifies bits
    ensures bits.Valid() && bits.chars == old(bits.chars) && bits.Contents() == old(bits.Contents())
    ensures status == 0 || status == -1 || status == -2
    ensures status == 0 && !bits.overflow ==> bits.Pos() >= old(bits.Pos()) + 1
    ensures Ahead(old(bits.Unread()), ls, id, x) ==>
      status == 0 && !bits.overflow && bits.Unread() == Field(id, NB_SUBMODE_BITS) + x
    ensures NullAhead(old(bits.Unread()), ls) ==> status == -2
    ensures RunsOut(old(bits.Unread()), ls) ==> status == -1 || (status == 0 && (bits.overflow || |bits.Unread()| < 4))
  {
    hide Bits, Field, LayerOk, LayerBits, Ahead, Rest, NullAhead, NullStart, Skips, Skipped, RunsOut, ShortBehind;
    ghost var stream := bits.Unread();
    ghost var good, nil, short := Ahead(stream, ls, id, x), NullAhead(stream, ls), RunsOut(stream, ls);
    if good {
      FirstBit(stream, ls, id, x);
    }
    if nil {
      NullRepeats(stream, ls);
    }
    if short {
      ShortStarts(stream, ls);
    }
    status := 0;
    var wideband := TakeBit(bits);
    if wideband != 0 {
      SkipOne(bits, stream, ls, id, x);
      if nil {
        NullStays(stream, bits.Unread(), ls);
      }
      var left := bits.Remaining();
      if left < 5 {
        return -1;
      }
      status := SkipSecond(bits, if ls == [] then [] else ls[1..], id, x);
    }
  }

  lemma NullStays(stream: seq<bool>, stream1: seq<bool>, ls: seq<Layer>)
    requires NullAhead(stream, ls)
    requires if NullStart(stream) then stream1 == stream else Skips(stream, ls) ==> stream1 == Skipped(stream, ls)
    ensures |stream1| >= 5 && stream1[0] && NullStart(stream1)
  {
    NullStartsSet(stream1);
  }

  lemma SkipStartsSet(stream: seq<bool>, ls: seq<Layer>)
    requires Skips(stream, ls)
    ensures stream != [] && stream[0]
  {
    LayerStartsSet(ls[0]);
    hide LayerBits, LayerOk;
    assert stream[0] == stream[..|LayerBits(ls[0])|][0];
  }

  lemma ShortStarts(stream: seq<bool>, ls: seq<Layer>)
    requires RunsOut(stream, ls) && |stream| >= 5
    ensures stream[0] && ls != [] && Skips(stream, ls) && ShortBehind(Skipped(stream, ls), ls[1..])
  {
    hide LayerBits, LayerOk, ShortBehind;
    SkipStartsSet(stream, ls);
  }

  lemma ShortGoesOn(stream: seq<bool>, ls: seq<Layer>)
    requires ShortBehind(stream, ls) && |stream| >= 5
    ensures stream[0] && Skips(stream, ls) && |Skipped(stream, ls)| < 5 && Low(Skipped(stream, ls))
  {
    hide LayerBits, LayerOk;
    SkipStartsSet(stream, ls);
  }

  /** A request in front of the block, with the layers in front of the request. */
  datatype Item = Item(ls: seq<Layer>, req: Request)

  predicate LayersOk(ls: seq<Layer>) {
    |ls| <= 2 && forall i :: 0 <= i < |ls| ==> LayerOk(ls[i]) && ls[i].Layer?
  }

  predicate ItemsOk(items: seq<Item>, callbacks: map<nat, Handler>) {
    forall i :: 0 <= i < |items| ==> LayersOk(items[i].ls) && items[i].req.Ok(callbacks)
  }

  /** Requests and layers, then a block. */
  function StreamOf(items: seq<Item>, ls: seq<Layer>, id: nat, x: seq<bool>): seq<bool>
    requires LayersOk(ls) && forall i :: 0 <= i < |items| ==> LayersOk(items[i].ls)
  {
    if items == [] then LayersBits(ls) + Block(id, x)
    else
      assert LayersOk(items[0].ls);
      LayersBits(items[0].ls) + Block(items[0].req.Kind(), items[0].req.Bits() + StreamOf(items[1..], ls, id, x))
  }

  predicate Leads(stream: seq<bool>, callbacks: map<nat, Handler>, items: seq<Item>, ls: seq<Layer>, id: nat,
                  x: seq<bool>) {
    LayersOk(ls) && id < 16 && ItemsOk(items, callbacks) && stream == StreamOf(items, ls, id, x)
  }

  datatype Found = Mode(m: nat) | Status(code: int)

  /** What the scan makes of a block number. */
  function Verdict(id: nat): Found {
    if id == 15 then Status(-1) else if id <= 8 then Mode(id) else Status(-2)
  }

  /** What comes before the next request, or before the block itself. */
  ghost function NextLayers(items: seq<Item>, ls: seq<Layer>): seq<Layer> { if items == [] then ls else items[0].ls }

  ghost function NextId(items: seq<Item>, id: nat): nat { if items == [] then id else items[0].req.Kind() }

  ghost function NextRest(items: seq<Item>, ls: seq<Layer>, id: nat, x: seq<bool>): seq<bool>
    requires LayersOk(ls) && forall i :: 0 <= i < |items| ==> LayersOk(items[i].ls)
  {
    if items == [] then x else items[0].req.Bits() + StreamOf(items[1..], ls, id, x)
  }

  lemma LeadsAhead(stream: seq<bool>, callbacks: map<nat, Handler>, items: seq<Item>, ls: seq<Layer>, id: nat,
                   x: seq<bool>)
    requires Leads(stream, callbacks, items, ls, id, x)
    ensures Ahead(stream, NextLayers(items, ls), NextId(items, id), NextRest(items, ls, id, x))
    ensures |stream| >= 5
    ensures items != [] ==> Leads(StreamOf(items[1..], ls, id, x), callbacks, items[1..], ls, id, x)
    ensures items != [] ==> items[0].req.Sized(callbacks) && items[0].req.Answer(callbacks) == 0
  {
    hide LayersBits, Block, Request.Bits, Request.Sized, Request.Answer, LayerOk;
    FirstBit(stream, NextLayers(items, ls), NextId(items, id), NextRest(items, ls, id, x));
  }

  /** The four bits of a block. */
  method TakeBlockId(bits: SpeexBits, ghost id: nat, ghost x: seq<bool>) returns (m: nat)
    requires bits.Valid() && !bits.overflow && |bits.Unread()| >= 4
    modifies bits
    ensures bits.Valid() && bits.chars == old(bits.chars) && bits.Contents() == old(bits.Contents())
    ensures !bits.overflow && bits.Pos() == old(bits.Pos()) + 4 && m < 16
    ensures id < 16 && old(bits.Unread()) == Field(id, NB_SUBMODE_BITS) + x ==> m == id && bits.Unread() == x
  {
    WidthFacts();
    hide Bits, Field, Value, Pow2;
    ghost var rest, at := bits.Unread(), bits.Pos();
    m := bits.UnpackUnsigned(NB_SUBMODE_BITS);
    assert bits.Contents()[at..at + 4] == rest[..4];
    if id < 16 && rest == Field(id, NB_SUBMODE_BITS) + x {
      TakeFour(id, x, rest);
    }
  }

  /** The do-while scan of nb_decode.  It ends on every stream, each turn taken again having moved at least five bits
      on; and behind skippable requests and layers it finds the block and stops right after its number. */
  method FindBlock(bits: SpeexBits, callbacks: map<nat, Handler>, ghost items: seq<Item>, ghost ls: seq<Layer>,
                   ghost id: nat, ghost x: seq<bool>) returns (r: Found, ghost rounds: nat)
    requires bits.Valid() && forall id :: id in callbacks ==> callbacks[id].taken <= 32
    modifies bits
    ensures bits.Valid() && bits.chars == old(bits.chars) && bits.Contents() == old(bits.Contents())
    ensures 5 * rounds <= |old(bits.Unread())|
    ensures r.Mode? ==> r.m <= 8 && !bits.overflow
    ensures !old(bits.overflow) && Leads(old(bits.Unread()), callbacks, items, ls, id, x) && id != 13 && id != 14 ==>
      r == Verdict(id) && !bits.overflow && bits.Unread() == x
    ensures old(bits.overflow) || |old(bits.Unread())| < 5 ==> r == Status(-1)
    ensures items == [] && !old(bits.overflow) && NullAhead(old(bits.Unread()), ls) ==> r == Status(-2)
    ensures items == [] && RunsOut(old(bits.Unread()), ls) ==> r == Status(-1)
  {
    hide NullAhead, RunsOut, Bits, Field, Value, Ahead, Leads, Request.Bits, Request.Ok, StreamOf;
    rounds := 0;
    ghost var nil := items == [] && !bits.overflow && NullAhead(bits.Unread(), ls);
    if nil {
      NullRepeats(bits.Unread(), ls);
    }
    ghost var short := items == [] && RunsOut(bits.Unread(), ls);
    ghost var left := items;
    ghost var good := !bits.overflow && Leads(bits.Unread(), callbacks, items, ls, id, x) && id != 13 && id != 14;
    ghost var first := bits.Unread();
    while true
      invariant bits.Valid() && bits.chars == old(bits.chars) && bits.Contents() == old(bits.Contents())
      invariant bits.Pos() >= old(bits.Pos()) + 5 * rounds
      invariant rounds == 0 ==> bits.Unread() == first && bits.overflow == old(bits.overflow)
      invariant rounds > 0 ==> !old(bits.overflow) && |first| >= 5
      invariant nil || short ==> rounds == 0 && left == items
      invariant good ==> !bits.overflow && Leads(bits.Unread(), callbacks, left, ls, id, x)
      decreases bits.nbBits - bits.Pos()
    {
      if good {
        LeadsAhead(bits.Unread(), callbacks, left, ls, id, x);
      }
      var remaining := bits.Remaining();
      if remaining < 5 {
        return Status(-1), rounds;
      }
      var r1, next := Turn(bits, callbacks, left, ls, id, x);
      if r1.Some? {
        return r1.value, rounds;
      }
      left := next;
      rounds := rounds + 1;
    }
  }

  /** One turn: a verdict, or a request handled. */
  method Turn(bits: SpeexBits, callbacks: map<nat, Handler>, ghost items: seq<Item>, ghost ls: seq<Layer>,
              ghost id: nat, ghost x: seq<bool>) returns (r: Option<Found>, ghost next: seq<Item>)
    requires bits.Valid() && !bits.overflow && |bits.Unread()| >= 5
    requires forall id :: id in callbacks ==> callbacks[id].taken <= 32
    modifies bits
    ensures bits.Valid() && bits.chars == old(bits.chars) && bits.Contents() == old(bits.Contents())
    ensures r.None? ==> bits.Pos() >= old(bits.Pos()) + 5
    ensures r.Some? && r.value.Mode? ==> r.value.m <= 8 && !bits.overflow
    ensures Leads(old(bits.Unread()), callbacks, items, ls, id, x) && id != 13 && id != 14 ==>
      if items == [] then r == Some(Verdict(id)) && !bits.overflow && bits.Unread() == x
      else r.None? && !bits.overflow && Leads(bits.Unread(), callbacks, next, ls, id, x)
    ensures items == [] && NullAhead(old(bits.Unread()), ls) ==> r == Some(Status(-2))
    ensures items == [] && RunsOut(old(bits.Unread()), ls) ==> r == Some(Status(-1))
  {
    hide NullAhead, RunsOut, Bits, Field, Value, Ahead, Request.Bits, Request.Ok, Request.Sized, Request.Answer;
    hide StreamOf, LayersOk;
    ghost var stream := bits.Unread();
    ghost var good := Leads(stream, callbacks, items, ls, id, x) && id != 13 && id != 14;
    next := if items == [] then [] else items[1..];
    ghost var nid, nls := NextId(items, id), NextLayers(items, ls);
    ghost var nx := if good then NextRest(items, ls, id, x) else [];
    ghost var req := if items == [] then Inband(16, []) else items[0].req;
    ghost var after := if good && items != [] then StreamOf(items[1..], ls, id, x) else [];
    if good {
      LeadsAhead(stream, callbacks, items, ls, id, x);
    }
    var status := SkipLayers(bits, nls, nid, nx);
    if status != 0 {
      return Some(Status(status)), next;
    }
    var remaining := bits.Remaining();
    if remaining < 4 {
      return Some(Status(-1)), next;
    }
    var m := TakeBlockId(bits, nid, nx);
    if m == 15 {
      return Some(Status(-1)), next;
    } else if m == 14 {
      var ret := InbandHandler(bits, callbacks, req, after);
      if ret != 0 {
        return Some(Status(ret)), next;
      }
    } else if m == 13 {
      var ret := DefaultUserHandler(bits, callbacks, req, after);
      if ret != 0 {
        return Some(Status(ret)), next;
      }
    } else if m > 8 {
      return Some(Status(-2)), next;
    } else {
      return Some(Mode(m)), next;
    }
    r := None;
  }

  // ----- the decoders -----

  datatype Heard = Frame(nb: NbFrame, layers: seq<Layer>) | Failed(code: int)

  /** A block that carries f, then x. */
  predicate Holds(f: NbFrame, id: nat, tail: seq<bool>, x: seq<bool>) {
    NbOk(f) && id == NbId(f) && tail == NbTail(f) + x
  }

  /** nb_decode: behind requests and layers it reads the frame that was sent, and it fails at a terminator or at the
      end. */
  method NbDecode(bits: SpeexBits, callbacks: map<nat, Handler>, ghost items: seq<Item>, ghost ls: seq<Layer>,
                  ghost id: nat, ghost tail: seq<bool>, ghost f: NbFrame, ghost x: seq<bool>) returns (r: Heard)
    requires bits.Valid() && forall id :: id in callbacks ==> callbacks[id].taken <= 32
    modifies bits
    ensures bits.Valid() && bits.chars == old(bits.chars) && bits.Contents() == old(bits.Contents())
    ensures r.Frame? ==> NbOk(r.nb) && r.layers == []
    ensures !old(bits.overflow) && Holds(f, id, tail, x) ==>
      (Leads(old(bits.Unread()), callbacks, items, ls, id, tail) ==>
        r == Frame(f, []) && !bits.overflow && bits.Unread() == x)
    ensures !old(bits.overflow) && Leads(old(bits.Unread()), callbacks, items, ls, id, tail) && id == 15 ==>
      r == Failed(-1)
    ensures old(bits.overflow) || |old(bits.Unread())| < 5 ==> r == Failed(-1)
    ensures items == [] && !old(bits.overflow) && NullAhead(old(bits.Unread()), ls) ==> r == Failed(-2)
    ensures items == [] && RunsOut(old(bits.Unread()), ls) ==> r == Failed(-1)
  {
    hide NullAhead, RunsOut, Bits, Leads, NbBody, NbSubmode, NbTail, NbOk;
    ghost var good := !bits.overflow && Leads(bits.Unread(), callbacks, items, ls, id, tail) && Holds(f, id, tail, x);
    if good {
      TailLength(f);
    }
    var found, rounds := FindBlock(bits, callbacks, items, ls, id, tail);
    match found
    case Status(code) =>
      r := Failed(code);
    case Mode(m) =>
      ghost var rest := bits.Unread();
      if m == 0 {
        SilentOk();
        r := Frame(Silent, []);
      } else {
        var g := DecodeBody(bits, m);
        TailLength(g);
        r := Frame(g, []);
      }
      if good {
        TailRead(f, r.nb, rest, x, bits.Unread(), bits.overflow);
      }
  }

  lemma SilentOk()
    ensures NbOk(Silent) && NbTail(Silent) == [] && NbId(Silent) == 0
  {}

  lemma TailLength(f: NbFrame)
    requires NbOk(f)
    ensures NbId(f) <= 8 && (NbId(f) == 0 <==> f.Silent?)
    ensures f.Coded? ==> 1 <= f.id <= 8 && NbTail(f) == NbBody(f) && |NbTail(f)| == NbSubmode(f.id).bitsPerFrame - 5
    ensures f.Silent? ==> NbTail(f) == []
  {
    NbLength(f);
    hide NbBody, NbSubmode, Field, InWidth, AllInWidth, SubframesOk;
  }

  /** A decoded body that matches the stream is the frame that was sent. */
  lemma TailRead(f: NbFrame, g: NbFrame, rest: seq<bool>, x: seq<bool>, y: seq<bool>, overflow: bool)
    requires NbOk(f) && NbOk(g) && NbId(f) == NbId(g) && rest == NbTail(f) + x
    requires !overflow ==> rest == NbTail(g) + y
    requires overflow ==> |rest| < |NbTail(f)|
    ensures g == f && y == x && !overflow
  {
    NbLength(f);
    NbLength(g);
    hide NbOk, NbTail, Field;
    SameTailLength(f, g);
    SplitEqual(NbTail(f), x, NbTail(g), y);
    TailsEqual(f, g);
  }

  lemma SameTailLength(f: NbFrame, g: NbFrame)
    requires NbOk(f) && NbOk(g) && NbId(f) == NbId(g)
    ensures |NbTail(f)| == |NbTail(g)|
  {
    IdsInWidth(f);
    IdsInWidth(g);
    NbLength(f);
    NbLength(g);
    hide NbOk, NbTail, Field;
  }

  datatype LayerRead = Got(f: Layer) | Missing | Bad

  /** The body of a layer in sb_decode. */
  method DecodeLayerBody(bits: SpeexBits, id: nat) returns (f: Layer)
    requires bits.Valid() && 1 <= id <= 4
    modifies bits
    ensures bits.Valid() && bits.chars == old(bits.chars) && bits.Contents() == old(bits.Contents())
    ensures f.Layer? && f.id == id && LayerOk(f)
    ensures !old(bits.overflow) && |old(bits.Unread())| >= WbSubmode(id).bitsPerFrame - 4 ==> !bits.overflow
    ensures !bits.overflow ==> !old(bits.overflow) && old(bits.Unread()) == LayerBody(f) + bits.Unread()
  {
    WbTableSum(id);
    hide Bits, Field, InWidth, AllInWidth, RunBits, SubframesBits, SubframesOk, HbLayout, WbSubmode, SubLayout.Width;
    var lsp := TakeRun(bits, WbSubmode(id).lspIndices, LSP_INDEX_BITS);
    var ss := DecodeSubframes(bits, id, true);
    f := Layer.Layer(id, lsp, ss);
    Gather2(RunBits(lsp, LSP_INDEX_BITS), SubframesBits(HbLayout(WbSubmode(id)), ss), bits.Unread());
  }

  /** The layer header and body of sb_decode; maxId is the last sub-mode the mode knows (4 for wideband, 1 for
      ultra-wideband), and a layer of another one is refused. */
  method DecodeLayer(bits: SpeexBits, maxId: nat, ghost f: Layer, ghost x: seq<bool>) returns (r: LayerRead)
    requires bits.Valid() && 1 <= maxId <= 4
    modifies bits
    ensures bits.Valid() && bits.chars == old(bits.chars) && bits.Contents() == old(bits.Contents())
    ensures r.Got? ==> LayerOk(r.f) && LayerId(r.f) <= maxId
    ensures !old(bits.overflow) && Starts(old(bits.Unread()), maxId, f, x) ==>
      r == Got(f) && !bits.overflow && bits.Unread() == x
    ensures !old(bits.overflow) && Starts(old(bits.Unread()), 4, f, x) && LayerId(f) > maxId ==> r == Bad
    ensures Low(old(bits.Unread())) ==>
      r == Missing && bits.overflow == old(bits.overflow) && bits.Pos() == old(bits.Pos())
  {
    hide Bits, LayerOk, Starts, Field, LayerBody, LayerTail, WbSubmode;
    ghost var good := !bits.overflow && Starts(bits.Unread(), maxId, f, x);
    if !bits.overflow && Starts(bits.Unread(), 4, f, x) {
      LayerStart(bits.Unread(), 4, f, x);
    }
    if good {
      LayerStart(bits.Unread(), maxId, f, x);
    }
    var wideband, id := TakeLayerId(bits);
    if !wideband {
      return Missing;
    }
    ghost var tail := bits.Unread();
    if id > maxId {
      return Bad;
    }
    NullOk();
    var g := NullLayer;
    if id != 0 {
      g := DecodeLayerBody(bits, id);
    }
    LayerTailLength(g);
    r := Got(g);
    if good {
      LayerTailLength(f);
      LayerTailRead(f, g, tail, x, bits.Unread(), bits.overflow);
    }
  }

  lemma NullOk()
    ensures LayerOk(NullLayer) && LayerId(NullLayer) == 0
  {}

  /** Is there a layer, and of which sub-mode? */
  method TakeLayerId(bits: SpeexBits) returns (wideband: bool, id: nat)
    requires bits.Valid()
    modifies bits
    ensures bits.Valid() && bits.chars == old(bits.chars) && bits.Contents() == old(bits.Contents())
    ensures id < 8
    ensures Low(old(bits.Unread())) ==>
      !wideband && bits.overflow == old(bits.overflow) && bits.Pos() == old(bits.Pos())
    ensures var stream := old(bits.Unread());
      !old(bits.overflow) && |stream| >= 4 && stream[0] ==>
        wideband && !bits.overflow && id == Value(stream[1..][..3]) && bits.Unread() == stream[1..][3..]
  {
    hide Bits;
    WidthBound();
    var remaining := bits.Remaining();
    var bit := 0;
    if remaining > 0 {
      bit := bits.Peek();
    }
    if bit == 0 {
      return false, 0;
    }
    bit := TakeBit(bits);
    ghost var rest, at := bits.Unread(), bits.Pos();
    id := bits.UnpackUnsigned(SB_SUBMODE_BITS);
    assert !bits.overflow ==> bits.Contents()[at..at + 3] == rest[..3];
    wideband := true;
  }

  lemma WidthBound()
    ensures Pow2(SB_SUBMODE_BITS) == 8
  {
    assert Pow2(1) == 2;
  }

  predicate Low(stream: seq<bool>) { stream == [] || !stream[0] }

  predicate Starts(stream: seq<bool>, maxId: nat, f: Layer, x: seq<bool>) {
    LayerOk(f) && LayerId(f) <= maxId && stream == LayerBits(f) + x
  }

  lemma LayerStart(stream: seq<bool>, maxId: nat, f: Layer, x: seq<bool>)
    requires Starts(stream, maxId, f, x)
    ensures |stream| >= 4 && stream[0] && Value(stream[1..][..3]) == LayerId(f) <= maxId
    ensures stream[1..][3..] == LayerTail(f) + x
    ensures LayerOk(f)
  {
    LayerLength(f);
    LayerIdInWidth(f);
    SingleBits();
    FieldValueInRange(LayerId(f), SB_SUBMODE_BITS);
    hide LayerOk, LayerTail, Field, Value, InWidth, WbSubmode;
    var id := Field(LayerId(f), SB_SUBMODE_BITS);
    Regroup([true], id, LayerTail(f), x);
    assert stream[1..] == id + (LayerTail(f) + x);
    assert stream[1..][..3] == id;
  }

  lemma LayerTailLength(f: Layer)
    requires LayerOk(f)
    ensures LayerId(f) <= 4 && (LayerId(f) == 0 <==> f.NullLayer?)
    ensures f.Layer? ==>
      1 <= f.id <= 4 && LayerTail(f) == LayerBody(f) && |LayerTail(f)| == WbSubmode(f.id).bitsPerFrame - 4
    ensures f.NullLayer? ==> LayerTail(f) == []
  {
    LayerLength(f);
    hide LayerBody, WbSubmode, Field, InWidth, AllInWidth, SubframesOk;
  }

  lemma LayerTailRead(f: Layer, g: Layer, rest: seq<bool>, x: seq<bool>, y: seq<bool>, overflow: bool)
    requires LayerOk(f) && LayerOk(g) && LayerId(f) == LayerId(g) && rest == LayerTail(f) + x
    requires !overflow ==> rest == LayerTail(g) + y
    requires overflow ==> |rest| < |LayerTail(f)|
    ensures g == f && y == x && !overflow
  {
    LayerTailLength(f);
    LayerTailLength(g);
    hide LayerOk, LayerTail, WbSubmode;
    SplitEqual(LayerTail(f), x, LayerTail(g), y);
    LayerTailsEqual(f, g);
  }
}
