/** Whole sessions on a bit stream: any mixture of packing and draining, then a final write, then reading back. */
module BitSession {
  import opened BitFields
  import opened BitStream
  import opened ByteBits

  datatype Op = Put(value: int, width: nat) | Drain

  predicate Fits(ops: seq<Op>) {
    forall i :: 0 <= i < |ops| && ops[i].Put? ==> ops[i].width <= 32
  }

  /** All the bits the session puts into the stream. */
  function Sent(ops: seq<Op>): (bits: seq<bool>) {
    if ops == [] then [] else Sent(ops[..|ops| - 1]) + OpBits(ops[|ops| - 1])
  }

  function OpBits(op: Op): (bits: seq<bool>) {
    match op
    case Put(v, w) => Field(v, w)
    case Drain => []
  }

  lemma SentStep(ops: seq<Op>, i: nat)
    requires i < |ops|
    ensures Sent(ops[..i + 1]) == Sent(ops[..i]) + OpBits(ops[i])
  {
    assert ops[..i + 1][..i] == ops[..i];
  }

  lemma {:induction false} SentPrefix(ops: seq<Op>, i: nat, n: nat)
    requires i <= n <= |ops|
    ensures Sent(ops[..i]) <= Sent(ops[..n])
    decreases n
  {
    if i < n {
      SentStep(ops, n - 1);
      SentPrefix(ops, i, n - 1);
    }
  }

  lemma DrainKeepsAll(packet: seq<bv8>, rest: seq<bool>, n: nat, out: seq<bv8>, all: seq<bool>)
    requires 8 * n <= |rest| && all == Bits(packet, 8 * |packet|) + rest && |out| == n
    requires Bits(out, 8 * n) == rest[..8 * n]
    ensures Bits(packet + out, 8 * |packet + out|) + rest[8 * n..] == all
  {
    hide Bits;
    BitsOfJoined(packet, out, 8 * n);
    assert 8 * |packet + out| == 8 * |packet| + 8 * n;
    assert rest[..8 * n] + rest[8 * n..] == rest;
  }

  /** One drain: the complete bytes leave, and nothing is lost. */
  method DrainInto(bits: SpeexBits, packet: seq<bv8>) returns (longer: seq<bv8>)
    requires bits.Writing()
    modifies bits`nbBits, bits`charPtr, bits.chars
    ensures bits.Writing()
    ensures Bits(longer, 8 * |longer|) + bits.Contents()
         == Bits(packet, 8 * |packet|) + old(bits.Contents())
  {
    hide Bits, Clear;
    ghost var rest := bits.Contents();
    var out := bits.WriteWholeBytes(bits.nbBits / 8);
    longer := packet + out[..];
    DrainKeepsAll(packet, rest, out.Length, out[..], Bits(packet, 8 * |packet|) + rest);
  }

  method FinishInto(bits: SpeexBits, packet: seq<bv8>) returns (longer: seq<bv8>)
    requires bits.Writing() && bits.owner
    modifies bits, bits.chars
    ensures Bits(longer, 8 * |longer|)
         == Bits(packet, 8 * |packet|) + old(bits.Contents()) + Padding(old(bits.nbBits))
  {
    hide Bits, Clear;
    ghost var all := bits.Contents() + Padding(bits.nbBits);
    var out := bits.Write(bits.nbBits + 1);
    longer := packet + out[..];
    assert all[..|all|] == all;
    BitsOfJoined(packet, out[..], 8 * out.Length);
    assert 8 * |longer| == 8 * |packet| + 8 * out.Length;
  }

  lemma SentNothing()
    ensures Sent([]) == [] && Bits([], 0) == []
  {}

  method SendOp(bits: SpeexBits, op: Op, packet: seq<bv8>) returns (longer: seq<bv8>)
    requires bits.Writing() && bits.owner && (op.Put? ==> op.width <= 32)
    modifies bits, bits.chars
    ensures bits.Writing() && bits.owner && (bits.chars == old(bits.chars) || fresh(bits.chars))
    ensures Bits(longer, 8 * |longer|) + bits.Contents()
         == Bits(packet, 8 * |packet|) + old(bits.Contents()) + OpBits(op)
  {
    hide Bits, Clear, Field;
    ghost var p, rest := Bits(packet, 8 * |packet|), bits.Contents();
    match op
    case Put(value, width) =>
      bits.Pack(value, width);
      longer := packet;
    case Drain =>
      longer := DrainInto(bits, packet);
  }

  /** Everything sent arrives in the packet, in order, whatever was drained on the way; a zero and then ones fill the
      last byte. */
  method Send(ops: seq<Op>) returns (packet: seq<bv8>)
    requires Fits(ops)
    ensures Bits(packet, 8 * |packet|) == Sent(ops) + Padding(|Sent(ops)|)
  {
    hide Bits, Clear, Sent, OpBits, Padding;
    var bits := new SpeexBits.Init();
    packet := [];
    SentNothing();
    assert ops[..0] == [];
    var i := 0;
    while i < |ops|
      invariant 0 <= i <= |ops|
      invariant fresh(bits) && fresh(bits.chars) && bits.Writing() && bits.owner
      invariant Bits(packet, 8 * |packet|) + bits.Contents() == Sent(ops[..i])
    {
      SentStep(ops, i);
      packet := SendOp(bits, ops[i], packet);
      i := i + 1;
    }
    assert ops[..i] == ops;
    SamePadding(|packet|, bits.nbBits);
    packet := FinishInto(bits, packet);
  }

  lemma SamePadding(k: nat, n: nat)
    ensures Padding(8 * k + n) == Padding(n)
  {
    assert (8 * k + n) % 8 == n % 8;
  }

  /** The values a session put, each modulo two to its width. */
  function Values(ops: seq<Op>): (values: seq<nat>) {
    if ops == [] then []
    else
      var front, op := Values(ops[..|ops| - 1]), ops[|ops| - 1];
      if op.Put? then front + [op.value % Pow2(op.width)] else front
  }

  lemma SentField(ops: seq<Op>, i: nat, stream: seq<bool>)
    requires i < |ops| && ops[i].Put? && Sent(ops) <= stream
    ensures |Sent(ops[..i])| + ops[i].width <= |Sent(ops)|
    ensures stream[|Sent(ops[..i])|..|Sent(ops[..i])| + ops[i].width] == Field(ops[i].value, ops[i].width)
  {
    SentStep(ops, i);
    SentPrefix(ops, i + 1, |ops|);
    assert ops[..|ops|] == ops;
    hide Sent, Field;
    var a, b := |Sent(ops[..i])|, |Sent(ops[..i + 1])|;
    assert stream[..b] == Sent(ops[..i + 1]);
    assert stream[a..b] == stream[..b][a..];
  }

  lemma ValuesStep(ops: seq<Op>, i: nat)
    requires i < |ops|
    ensures Values(ops[..i + 1]) ==
      if ops[i].Put? then Values(ops[..i]) + [ops[i].value % Pow2(ops[i].width)] else Values(ops[..i])
  {
    assert ops[..i + 1][..i] == ops[..i];
  }

  method ReceiveOp(bits: SpeexBits, ghost ops: seq<Op>, ghost i: nat, width: nat) returns (v: nat)
    requires i < |ops| && ops[i].Put? && width == ops[i].width <= 32
    requires bits.Valid() && !bits.overflow && bits.Pos() == |Sent(ops[..i])| && Sent(ops) <= bits.Contents()
    modifies bits
    ensures bits.Valid() && bits.Contents() == old(bits.Contents()) && bits.chars == old(bits.chars)
    ensures !bits.overflow && bits.Pos() == |Sent(ops[..i + 1])|
    ensures v == ops[i].value % Pow2(width)
  {
    hide Bits, Sent, Field, Value;
    SentStep(ops, i);
    SentField(ops, i, bits.Contents());
    ValueOfField(ops[i].value, ops[i].width);
    v := bits.UnpackUnsigned(width);
  }

  /** A receiver that asks for the same widths gets every value back and meets no overflow. */
  method Receive(packet: array<bv8>, ops: seq<Op>) returns (values: seq<nat>, bits: SpeexBits)
    requires Fits(ops) && Sent(ops) <= Bits(packet[..], 8 * packet.Length)
    ensures values == Values(ops)
    ensures fresh(bits) && bits.Valid() && !bits.overflow
    ensures bits.Unread() == Bits(packet[..], 8 * packet.Length)[|Sent(ops)|..]
  {
    hide Bits, Sent, OpBits, Values;
    bits := new SpeexBits.Init();
    bits.ReadFrom(packet);
    ghost var stream := Bits(packet[..], 8 * packet.Length);
    assert packet[..packet.Length] == packet[..];
    values := [];
    assert ops[..0] == [];
    SentNothing();
    NoValues();
    var i := 0;
    while i < |ops|
      invariant 0 <= i <= |ops|
      invariant fresh(bits) && bits.Valid() && !bits.overflow && bits.Contents() == stream
      invariant bits.Pos() == |Sent(ops[..i])|
      invariant values == Values(ops[..i])
    {
      ValuesStep(ops, i);
      SentSkip(ops, i);
      if ops[i].Put? {
        var v := ReceiveOp(bits, ops, i, ops[i].width);
        values := values + [v];
      }
      i := i + 1;
    }
    assert ops[..i] == ops;
  }

  lemma NoValues()
    ensures Values([]) == []
  {}

  lemma SentSkip(ops: seq<Op>, i: nat)
    requires i < |ops|
    ensures ops[i].Drain? ==> Sent(ops[..i + 1]) == Sent(ops[..i])
  {
    SentStep(ops, i);
  }

  /** Sending, then receiving, gives back every value; what is left over is the padding. */
  method RoundTrip(ops: seq<Op>) returns (values: seq<nat>)
    requires Fits(ops)
    ensures values == Values(ops)
  {
    var packet := Send(ops);
    var wire := new bv8[|packet|](i requires 0 <= i < |packet| => packet[i]);
    assert wire[..] == packet;
    var bits;
    values, bits := Receive(wire, ops);
    assert bits.Unread() == Padding(|Sent(ops)|);
  }
}
