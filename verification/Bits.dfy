/** A byte buffer seen as a run of bits, most significant bit of each byte first. */
module ByteBits {

  function Mask(k: nat): bv8
    requires k < 8
  {
    0x80 >> k
  }

  predicate BitAt(b: bv8, k: nat)
    requires k < 8
  {
    b & Mask(k) != 0
  }

  /** b |= bit << (7 - k) */
  function OrBit(b: bv8, k: nat, bit: bool): bv8
    requires k < 8
  {
    b | (if bit then Mask(k) else 0)
  }

  lemma OrBitAt(b: bv8, k: nat, bit: bool, j: nat)
    requires k < 8 && j < 8
    ensures BitAt(OrBit(b, k, bit), j) == (BitAt(b, j) || (j == k && bit))
  {
    MasksApart(k, j);
    OrAnd(b, if bit then Mask(k) else 0, Mask(j));
  }

  lemma OrAnd(a: bv8, b: bv8, m: bv8)
    ensures (a | b) & m == (a & m) | (b & m)
    ensures (a & m) | (b & m) != 0 <==> a & m != 0 || b & m != 0
  {}

  lemma MasksApart(k: nat, j: nat)
    requires k < 8 && j < 8
    ensures Mask(k) & Mask(j) == if k == j then Mask(k) else 0
    ensures Mask(k) != 0
    ensures 0 & Mask(j) == 0
  {
    assert Mask(0) == 0x80 && Mask(1) == 0x40 && Mask(2) == 0x20 && Mask(3) == 0x10;
    assert Mask(4) == 0x08 && Mask(5) == 0x04 && Mask(6) == 0x02 && Mask(7) == 0x01;
  }

  lemma ZeroByte(j: nat)
    requires j < 8
    ensures !BitAt(0, j)
  {
    MasksApart(j, j);
  }

  predicate Bit(s: seq<bv8>, i: nat)
    requires i < 8 * |s|
  {
    BitAt(s[i / 8], i % 8)
  }

  /** The first n bits. */
  function Bits(s: seq<bv8>, n: nat): (bits: seq<bool>)
    requires n <= 8 * |s|
    ensures |bits| == n
  {
    seq(n, i requires 0 <= i < n => Bit(s, i))
  }

  /** A byte is its eight bits put together, the most significant first. */
  lemma ByteOrder(b: bv8)
    ensures var s := Bits([b], 8);
      b == (if s[0] then 0x80 else 0) | (if s[1] then 0x40 else 0) | (if s[2] then 0x20 else 0)
         | (if s[3] then 0x10 else 0) | (if s[4] then 0x08 else 0) | (if s[5] then 0x04 else 0)
         | (if s[6] then 0x02 else 0) | (if s[7] then 0x01 else 0)
  {
    hide Bits, BitAt;
    FirstByte(b);
    ByMask(b);
    BitsOfByte(b);
  }

  lemma FirstByte(b: bv8)
    ensures forall k :: 0 <= k < 8 ==> Bits([b], 8)[k] == BitAt(b, k)
  {
    hide BitAt;
  }

  lemma ByMask(b: bv8)
    ensures BitAt(b, 0) == (b & 0x80 != 0) && BitAt(b, 1) == (b & 0x40 != 0)
    ensures BitAt(b, 2) == (b & 0x20 != 0) && BitAt(b, 3) == (b & 0x10 != 0)
    ensures BitAt(b, 4) == (b & 0x08 != 0) && BitAt(b, 5) == (b & 0x04 != 0)
    ensures BitAt(b, 6) == (b & 0x02 != 0) && BitAt(b, 7) == (b & 0x01 != 0)
  {
    assert Mask(0) == 0x80 && Mask(1) == 0x40 && Mask(2) == 0x20 && Mask(3) == 0x10;
    assert Mask(4) == 0x08 && Mask(5) == 0x04 && Mask(6) == 0x02 && Mask(7) == 0x01;
  }

  lemma BitsOfByte(b: bv8)
    ensures b == (if b & 0x80 != 0 then 0x80 else 0) | (if b & 0x40 != 0 then 0x40 else 0)
               | (if b & 0x20 != 0 then 0x20 else 0) | (if b & 0x10 != 0 then 0x10 else 0)
               | (if b & 0x08 != 0 then 0x08 else 0) | (if b & 0x04 != 0 then 0x04 else 0)
               | (if b & 0x02 != 0 then 0x02 else 0) | (if b & 0x01 != 0 then 0x01 else 0)
  {}

  /** No bit of b is set from position k on. */
  predicate Clear(b: bv8, k: nat) {
    forall j :: k <= j < 8 ==> !BitAt(b, j)
  }

  /** Setting the first clear bit of the last byte in use appends one bit. */
  lemma BitsAppend(s: seq<bv8>, t: seq<bv8>, n: nat, bit: bool)
    requires |s| == |t| && n / 8 < |s| && Clear(s[n / 8], n % 8)
    requires t[n / 8] == OrBit(s[n / 8], n % 8, bit)
    requires forall i :: 0 <= i < n / 8 ==> t[i] == s[i]
    ensures Bits(t, n + 1) == Bits(s, n) + [bit]
    ensures Clear(t[n / 8], n % 8 + 1)
  {
    hide BitAt, OrBit;
    var p := n / 8;
    forall j | 0 <= j < 8
      ensures BitAt(t[p], j) == (BitAt(s[p], j) || (j == n % 8 && bit))
    {
      OrBitAt(s[p], n % 8, bit, j);
    }
  }

  lemma BitsOfPrefix(s: seq<bv8>, t: seq<bv8>, n: nat)
    requires n <= 8 * |s| && n <= 8 * |t|
    requires forall i :: 0 <= i < |s| && 8 * i < n ==> i < |t| && s[i] == t[i]
    ensures Bits(s, n) == Bits(t, n)
  {
    hide BitAt;
  }

  lemma BitsTake(s: seq<bv8>, m: nat, n: nat)
    requires m <= n <= 8 * |s|
    ensures Bits(s, n)[..m] == Bits(s, m)
  {
    hide BitAt;
  }

  /** Dropping whole bytes drops eight bits each. */
  lemma BitsDrop(s: seq<bv8>, k: nat, n: nat)
    requires 8 * k <= n <= 8 * |s|
    ensures Bits(s, n) == Bits(s[..k], 8 * k) + Bits(s[k..], n - 8 * k)
  {
    hide BitAt;
    var a, b := Bits(s[..k], 8 * k), Bits(s[k..], n - 8 * k);
    forall i | 0 <= i < n
      ensures Bits(s, n)[i] == (a + b)[i]
    {
      if i >= 8 * k {
        assert (i - 8 * k) / 8 == i / 8 - k && (i - 8 * k) % 8 == i % 8;
      }
    }
  }

  lemma BitsMiddle(s: seq<bv8>, k: nat, n: nat, m: nat)
    requires 8 * k + m <= n <= 8 * |s|
    ensures Bits(s, n)[8 * k..8 * k + m] == Bits(s[k..], m)
  {
    BitsDrop(s, k, n);
    BitsTake(s[k..], m, n - 8 * k);
    hide Bits;
    var b := Bits(s[k..], n - 8 * k);
    assert Bits(s, n)[8 * k..8 * k + m] == b[..m];
  }

  lemma BitsOfJoined(a: seq<bv8>, b: seq<bv8>, n: nat)
    requires n <= 8 * |b|
    ensures Bits(a + b, 8 * |a| + n) == Bits(a, 8 * |a|) + Bits(b, n)
  {
    BitsDrop(a + b, |a|, 8 * |a| + n);
    assert (a + b)[..|a|] == a && (a + b)[|a|..] == b;
  }
}

/** The SpeexBits structure of bits.c (BYTES_PER_CHAR is 1). */
module BitStream {
  import opened BitFields
  import opened ByteBits
  import opened Remainders

  const MAX_CHARS_PER_FRAME := 2000

  function Ones(n: nat): (bits: seq<bool>)
    ensures |bits| == n
  {
    seq(n, _ => true)
  }

  /** What insert_terminator adds after n bits: a zero, then ones up to the next byte. */
  function Padding(n: nat): (p: seq<bool>)
    ensures (n + |p|) % 8 == 0 && |p| < 8
  {
    if n % 8 == 0 then [] else [false] + Ones(7 - n % 8)
  }

  /** Two's complement. */
  function SignedValue(bits: seq<bool>): int {
    if bits != [] && bits[0] then Value(bits) - Pow2(|bits|) else Value(bits)
  }

  /** A signed field comes back exactly. */
  lemma SignedValueOfField(data: int, width: nat)
    requires width >= 1 && 0 <= data + Pow2(width - 1) && data < Pow2(width - 1)
    ensures SignedValue(Field(data, width)) == data
  {
    ValueOfField(data, width);
    FieldBit(data, width, 0);
    var p := Pow2(width - 1);
    if data < 0 {
      QuotientUnique(data, -1, data + p, p);
      QuotientUnique(data, -1, data + 2 * p, 2 * p);
    } else {
      QuotientUnique(data, 0, data, p);
      QuotientUnique(data, 0, data, 2 * p);
    }
  }

  lemma {:induction false} HighBitIsFirst(bits: seq<bool>)
    requires bits != []
    ensures Value(bits) >= Pow2(|bits| - 1) <==> bits[0]
  {
    if |bits| > 1 {
      HighBitIsFirst(bits[..|bits| - 1]);
    }
  }

  lemma QuotientSign(u: nat, p: nat)
    requires p > 0
    ensures u / p != 0 <==> u >= p
  {
    if u < p {
      QuotientUnique(u, 0, u, p);
    }
  }

  lemma Pow32()
    ensures Pow2(32) == 0x1_0000_0000
  {
    assert Pow2(8) == 256 && Pow2(16) == 65536 && Pow2(24) == 0x100_0000;
  }

  /** The bit that shifting the unsigned 32-bit data right by left - 1 exposes. */
  lemma ShiftedBit(data: int, width: nat, left: nat)
    requires 0 < left <= width <= 32
    ensures ((data % 0x1_0000_0000) / Pow2(left - 1)) % 2 == 1 <==> Field(data, width)[width - left]
  {
    Pow32();
    FieldModulo(data, width, 32);
    FieldBit(data % Pow2(32), width, width - left);
  }

  lemma OneMore(before: seq<bool>, k: nat)
    requires k > 0
    ensures before + Ones(k) == (before + Ones(k - 1)) + [true]
  {}

  lemma NextBit(before: seq<bool>, run: seq<bool>, k: nat)
    requires k < |run|
    ensures before + run[..k + 1] == (before + run[..k]) + [run[k]]
  {}

  lemma TerminatorIsPadding(before: seq<bool>, byte: nat, bit: nat)
    requires bit < 8
    ensures var n := 8 * byte + bit;
      before + Padding(n) == if bit == 0 then before + Ones(0) else
        (before + [false]) + Ones(if bit == 7 then 0 else 8 - (bit + 1))
  {}

  lemma PaddingIsEmpty(n: nat)
    ensures Padding(n) == [] <==> n % 8 == 0
    ensures (n + |Padding(n)|) / 8 == (n + 7) / 8
  {}

  lemma ValueStep(bits: seq<bool>, k: nat)
    requires k < |bits|
    ensures Value(bits[..k + 1]) == 2 * Value(bits[..k]) + (if bits[k] then 1 else 0)
  {
    assert bits[..k + 1][..k] == bits[..k];
  }

  class SpeexBits {
    var chars: array<bv8>
    var nbBits: int
    var charPtr: int
    var bitPtr: int
    var owner: bool
    var overflow: bool
    var bufSize: int

    ghost predicate Valid()
      reads this
    {
      && chars.Length == bufSize
      && 0 <= charPtr && 0 <= bitPtr < 8
      && 8 * charPtr + bitPtr <= nbBits <= 8 * bufSize
    }

    /** The cursor stands at the end, on a byte whose unused bits are zero: ready for packing. */
    ghost predicate Writing()
      reads this, chars
    {
      && Valid()
      && nbBits == 8 * charPtr + bitPtr
      && charPtr < bufSize
      && Clear(chars[charPtr], bitPtr)
    }

    ghost function Pos(): int
      reads this
    {
      8 * charPtr + bitPtr
    }

    ghost function Contents(): (bits: seq<bool>)
      requires Valid()
      reads this, chars
      ensures |bits| == nbBits
    {
      Bits(chars[..], nbBits)
    }

    /** The bits the cursor has not reached. */
    ghost function Unread(): (bits: seq<bool>)
      requires Valid()
      reads this, chars
    {
      Contents()[Pos()..]
    }

    constructor Init()
      ensures Writing() && Contents() == [] && owner && !overflow
      ensures fresh(chars)
    {
      chars := new bv8[MAX_CHARS_PER_FRAME];
      bufSize := MAX_CHARS_PER_FRAME;
      owner := true;
      nbBits, charPtr, bitPtr, overflow := 0, 0, 0, false;
      new;
      Reset();
    }

    constructor InitBuffer(buff: array<bv8>)
      requires buff.Length > 0
      modifies buff
      ensures Writing() && Contents() == [] && !owner && !overflow && chars == buff
    {
      chars := buff;
      bufSize := buff.Length;
      owner := false;
      nbBits, charPtr, bitPtr, overflow := 0, 0, 0, false;
      new;
      Reset();
    }

    constructor SetBitBuffer(buff: array<bv8>)
      ensures Valid() && Contents() == Bits(buff[..], 8 * buff.Length) && Pos() == 0 && !owner && !overflow
    {
      chars := buff;
      bufSize := buff.Length;
      owner := false;
      nbBits := 8 * buff.Length;
      charPtr, bitPtr, overflow := 0, 0, false;
    }

    method Reset()
      requires chars.Length == bufSize > 0
      modifies this`nbBits, this`charPtr, this`bitPtr, this`overflow, chars
      ensures Writing() && Contents() == [] && !overflow
    {
      ClearByte(0);
      nbBits := 0;
      charPtr := 0;
      bitPtr := 0;
      overflow := false;
    }

    /** Store a zero byte. */
    method ClearByte(i: int)
      requires 0 <= i < chars.Length
      modifies chars
      ensures chars[..] == old(chars[..])[i := 0]
      ensures Clear(chars[i], 0)
    {
      chars[i] := 0;
      forall j | 0 <= j < 8
        ensures !BitAt(0, j)
      {
        ZeroByte(j);
      }
    }

    method Rewind()
      requires Valid()
      modifies this`charPtr, this`bitPtr, this`overflow
      ensures Valid() && Pos() == 0 && !overflow && Contents() == old(Contents())
    {
      charPtr := 0;
      bitPtr := 0;
      overflow := false;
    }

    /** Grow an owned buffer; its bytes keep their values. */
    method Resize(newSize: int)
      requires chars.Length == bufSize <= newSize
      modifies this`chars, this`bufSize
      ensures fresh(chars) && chars.Length == bufSize == newSize
      ensures chars[..old(bufSize)] == old(chars[..])
    {
      var tmp := new bv8[newSize];
      var i := 0;
      while i < bufSize
        invariant chars == old(chars) && bufSize == old(bufSize) && 0 <= i <= bufSize
        invariant tmp[..i] == chars[..i]
      {
        tmp[i] := chars[i];
        i := i + 1;
      }
      bufSize := newSize;
      chars := tmp;
    }

    // ----- packing -----

    /** One turn of the packing loop. */
    method PackBit(bit: bool)
      requires Writing() && (bitPtr == 7 ==> charPtr + 1 < bufSize)
      modifies this`nbBits, this`charPtr, this`bitPtr, chars
      ensures Writing() && Contents() == old(Contents()) + [bit]
      ensures nbBits == old(nbBits) + 1
    {
      hide Clear, Bits, BitAt, OrBit;
      ghost var s, n := chars[..], nbBits;
      chars[charPtr] := OrBit(chars[charPtr], bitPtr, bit);
      assert n / 8 == charPtr && n % 8 == bitPtr;
      ghost var t := chars[..];
      assert Bits(t, n + 1) == Bits(s, n) + [bit] && Clear(t[n / 8], n % 8 + 1) by {
        BitsAppend(s, t, n, bit);
      }
      bitPtr := bitPtr + 1;
      if bitPtr == 8 {
        bitPtr := 0;
        charPtr := charPtr + 1;
        ClearByte(charPtr);
        BitsOfPrefix(t, chars[..], n + 1);
      }
      nbBits := nbBits + 1;
    }

    /** True when width more bits fit without growing the buffer. */
    predicate HasRoom(width: nat)
      reads this
    {
      charPtr + (width + bitPtr) / 8 < bufSize
    }

    /** Make room for width more bits, if the buffer may grow. */
    method MakeRoom(width: nat) returns (ok: bool)
      requires Writing() && width <= 32
      modifies this`chars, this`bufSize
      ensures Writing() && (chars == old(chars) || fresh(chars))
      ensures bufSize == if owner && !old(HasRoom(width)) then (old(bufSize) + 5) * 3 / 2 else old(bufSize)
      ensures Contents() == old(Contents())
      ensures ok == (owner || old(HasRoom(width))) && (ok ==> HasRoom(width))
    {
      if charPtr + (width + bitPtr) / 8 < bufSize {
        return true;
      }
      if !owner {
        return false;
      }
      ghost var s := chars[..];
      Resize((bufSize + 5) * 3 / 2);
      assert chars[charPtr] == chars[..|s|][charPtr];
      KeepsContents(s, chars[..], nbBits);
      return true;
    }

    /** The packing loop. */
    method PackBits(data: int, width: nat)
      requires Writing() && width <= 32 && HasRoom(width)
      modifies this`nbBits, this`charPtr, this`bitPtr, chars
      ensures Writing() && Contents() == old(Contents()) + Field(data, width)
    {
      hide Field, Clear, Bits, Pow2;
      ghost var before, field := Contents(), Field(data, width);
      var d := data % 0x1_0000_0000;
      assert before + field[..0] == before;
      var left := width;
      while left > 0
        invariant 0 <= left <= width
        invariant Writing() && HasRoom(left)
        invariant Contents() == before + field[..width - left]
      {
        ShiftedBit(data, width, left);
        NextBit(before, field, width - left);
        PackBit((d / Pow2(left - 1)) % 2 == 1);
        left := left - 1;
      }
      assert field[..width] == field;
    }

    /** Append the low width bits of data.  An owned buffer grows when it has to; a borrowed one that is full is
        left as it was. */
    method Pack(data: int, width: nat)
      requires Writing() && width <= 32
      modifies this`nbBits, this`charPtr, this`bitPtr, this`chars, this`bufSize, chars
      ensures Writing() && (chars == old(chars) || fresh(chars))
      ensures bufSize == if owner && !old(HasRoom(width)) then (old(bufSize) + 5) * 3 / 2 else old(bufSize)
      ensures Contents() == if owner || old(HasRoom(width)) then old(Contents()) + Field(data, width)
        else old(Contents())
    {
      var ok := MakeRoom(width);
      if ok {
        PackBits(data, width);
      }
    }

    /** One bit more, where it fits. */
    method PackOne(bit: bool)
      requires Writing() && (owner || bitPtr < 7 || charPtr + 1 < bufSize)
      modifies this`nbBits, this`charPtr, this`bitPtr, this`chars, this`bufSize, chars
      ensures Writing() && (chars == old(chars) || fresh(chars)) && bufSize >= old(bufSize)
      ensures Contents() == old(Contents()) + [bit] && nbBits == old(nbBits) + 1
      ensures if old(bitPtr) == 7 then bitPtr == 0 else bitPtr == old(bitPtr) + 1 && charPtr == old(charPtr)
    {
      hide Clear, Bits;
      var data := if bit then 1 else 0;
      assert Field(data, 1) == [bit];
      hide Field;
      Pack(data, 1);
      assert nbBits == |Contents()|;
    }

    lemma KeepsContents(s: seq<bv8>, t: seq<bv8>, n: nat)
      requires n <= 8 * |s| && |s| <= |t| && t[..|s|] == s
      ensures Bits(t, n) == Bits(s, n)
    {
      forall i | 0 <= i < |s|
        ensures s[i] == t[i]
      {
        assert t[..|s|][i] == t[i];
      }
      BitsOfPrefix(s, t, n);
    }

    /** Ones up to the next byte. */
    method FillByte()
      requires Writing() && (owner || bitPtr == 0 || charPtr + 1 < bufSize)
      modifies this`nbBits, this`charPtr, this`bitPtr, this`chars, this`bufSize, chars
      ensures Writing() && bitPtr == 0 && (chars == old(chars) || fresh(chars)) && bufSize >= old(bufSize)
      ensures Contents() == old(Contents()) + Ones(if old(bitPtr) == 0 then 0 else 8 - old(bitPtr))
    {
      hide Clear, Bits;
      ghost var before, n, b := Contents(), nbBits, bitPtr;
      while bitPtr > 0
        invariant Writing() && (chars == old(chars) || fresh(chars)) && bufSize >= old(bufSize)
        invariant bitPtr > 0 ==> bitPtr == b + nbBits - n && b > 0 && (owner || charPtr + 1 < bufSize)
        invariant bitPtr == 0 ==> nbBits - n == if b == 0 then 0 else 8 - b
        invariant n <= nbBits && Contents() == before + Ones(nbBits - n)
        decreases n + 8 - nbBits
      {
        PackOne(true);
        OneMore(before, nbBits - n);
      }
    }

    /** Pad to a byte boundary. */
    method InsertTerminator()
      requires Writing() && (owner || bitPtr == 0 || charPtr + 1 < bufSize)
      modifies this`nbBits, this`charPtr, this`bitPtr, this`chars, this`bufSize, chars
      ensures Writing() && bitPtr == 0 && (chars == old(chars) || fresh(chars)) && bufSize >= old(bufSize)
      ensures Contents() == old(Contents()) + Padding(old(nbBits))
    {
      hide Clear, Bits, Ones, Padding;
      TerminatorIsPadding(Contents(), charPtr, bitPtr);
      if bitPtr > 0 {
        PackOne(false);
      }
      FillByte();
    }

    // ----- reading -----

    /** The reading loop, from any cursor. */
    method ReadBits(start: int, width: nat) returns (d: nat)
      requires Valid() && width <= 32 && 0 <= start && start + width <= nbBits
      ensures d == Value(Contents()[start..start + width])
    {
      hide Bits, BitAt, Value;
      ghost var run := Contents()[start..start + width];
      d := 0;
      assert Value(run[..0]) == 0 by {
        EmptyValue(run[..0]);
      }
      var byte, bit := start / 8, start % 8;
      var left := width;
      while left > 0
        invariant 0 <= left <= width
        invariant 0 <= byte && 0 <= bit < 8 && 8 * byte + bit == start + width - left
        invariant d == Value(run[..width - left])
      {
        BitOfContents(8 * byte + bit);
        ValueStep(run, width - left);
        d := 2 * d + (if BitAt(chars[byte], bit) then 1 else 0);
        bit := bit + 1;
        if bit == 8 {
          bit := 0;
          byte := byte + 1;
        }
        left := left - 1;
      }
      assert run[..width] == run;
    }

    lemma EmptyValue(bits: seq<bool>)
      requires bits == []
      ensures Value(bits) == 0
    {}

    lemma BitOfContents(i: nat)
      requires Valid() && i < nbBits
      ensures Contents()[i] == BitAt(chars[i / 8], i % 8)
    {}

    /** Take width bits as an unsigned number; past the end, set the overflow flag for good and answer zero. */
    method UnpackUnsigned(width: nat) returns (d: nat)
      requires Valid() && width <= 32
      modifies this`charPtr, this`bitPtr, this`overflow
      ensures Valid() && Contents() == old(Contents())
      ensures overflow == (old(overflow) || old(Pos()) + width > nbBits)
      ensures Pos() == if overflow then old(Pos()) else old(Pos()) + width
      ensures d == if overflow then 0 else Value(Contents()[old(Pos())..Pos()])
    {
      if 8 * charPtr + bitPtr + width > nbBits {
        overflow := true;
      }
      if overflow {
        return 0;
      }
      hide Bits;
      var start := 8 * charPtr + bitPtr;
      d := ReadBits(start, width);
      charPtr, bitPtr := (start + width) / 8, (start + width) % 8;
    }

    /** The same number without moving the cursor. */
    method PeekUnsigned(width: nat) returns (d: nat)
      requires Valid() && width <= 32
      modifies this`overflow
      ensures Valid() && Contents() == old(Contents())
      ensures overflow == (old(overflow) || Pos() + width > nbBits)
      ensures d == if overflow then 0 else Value(Contents()[Pos()..Pos() + width])
    {
      if 8 * charPtr + bitPtr + width > nbBits {
        overflow := true;
      }
      if overflow {
        return 0;
      }
      d := ReadBits(8 * charPtr + bitPtr, width);
    }

    method Peek() returns (d: nat)
      requires Valid()
      modifies this`overflow
      ensures Valid() && Contents() == old(Contents())
      ensures overflow == (old(overflow) || Pos() + 1 > nbBits)
      ensures d == if !overflow && Contents()[Pos()] then 1 else 0
    {
      if 8 * charPtr + bitPtr + 1 > nbBits {
        overflow := true;
      }
      if overflow {
        return 0;
      }
      BitOfContents(Pos());
      d := if BitAt(chars[charPtr], bitPtr) then 1 else 0;
    }

    /** Take width bits as a two's complement number. */
    method UnpackSigned(width: nat) returns (d: int)
      requires Valid() && 1 <= width <= 31
      modifies this`charPtr, this`bitPtr, this`overflow
      ensures Valid() && Contents() == old(Contents())
      ensures overflow == (old(overflow) || old(Pos()) + width > nbBits)
      ensures Pos() == if overflow then old(Pos()) else old(Pos()) + width
      ensures d == if overflow then 0 else SignedValue(Contents()[old(Pos())..Pos()])
    {
      var u := UnpackUnsigned(width);
      QuotientSign(u, Pow2(width - 1));
      if !overflow {
        HighBitIsFirst(Contents()[old(Pos())..Pos()]);
      }
      d := if u / Pow2(width - 1) != 0 then u - Pow2(width) else u;
    }

    /** Move the cursor by n, backward too, like reading n bits. */
    method Advance(n: int)
      requires Valid() && 0 <= Pos() + n
      modifies this`charPtr, this`bitPtr, this`overflow
      ensures Valid() && Contents() == old(Contents())
      ensures overflow == (old(overflow) || old(Pos()) + n > nbBits)
      ensures Pos() == if overflow then old(Pos()) else old(Pos()) + n
    {
      if 8 * charPtr + bitPtr + n > nbBits || overflow {
        overflow := true;
        return;
      }
      hide Bits;
      charPtr, bitPtr := charPtr + (bitPtr + n) / 8, (bitPtr + n) % 8;
    }

    method Remaining() returns (n: int)
      requires Valid()
      ensures n == if overflow then -1 else |Unread()|
    {
      if overflow {
        return -1;
      }
      n := nbBits - (8 * charPtr + bitPtr);
    }

    // ----- whole buffers -----

    method CopyOut(n: int) returns (out: array<bv8>)
      requires Valid() && 0 <= n <= bufSize
      ensures fresh(out) && out[..] == chars[..n]
    {
      out := new bv8[n];
      var i := 0;
      while i < n
        invariant 0 <= i <= n
        invariant out[..i] == chars[..i]
      {
        out[i] := chars[i];
        i := i + 1;
      }
    }

    /** The bytes of the stream, padded in place; the cursor and the count stay as they were. */
    method Write(maxBytes: nat) returns (out: array<bv8>)
      requires Writing() && (owner || bitPtr == 0 || charPtr + 1 < bufSize)
      modifies this`nbBits, this`charPtr, this`bitPtr, this`chars, this`bufSize, chars
      ensures Valid() && Contents() == old(Contents()) && Pos() == old(Pos())
      ensures chars == old(chars) || fresh(chars)
      ensures fresh(out) && out.Length <= maxBytes
      ensures var all := old(Contents()) + Padding(old(nbBits));
        && out.Length == (if maxBytes < |all| / 8 then maxBytes else |all| / 8)
        && Bits(out[..], 8 * out.Length) == all[..8 * out.Length]
    {
      hide Clear, Bits, Padding;
      ghost var before := Contents();
      PaddingIsEmpty(nbBits);
      var savedBit, savedChar, savedBits := bitPtr, charPtr, nbBits;
      InsertTerminator();
      ghost var all := Contents();
      ghost var total := nbBits;
      BitsTake(chars[..], savedBits, nbBits);
      assert all[..savedBits] == before;
      bitPtr, charPtr, nbBits := savedBit, savedChar, savedBits;
      var n := if maxBytes > (nbBits + 7) / 8 then (nbBits + 7) / 8 else maxBytes;
      out := CopyOut(n);
      PrefixBits(chars[..], out[..], n, total);
    }

    lemma PrefixBits(s: seq<bv8>, t: seq<bv8>, k: nat, n: nat)
      requires k <= |s| && t == s[..k] && 8 * k <= n <= 8 * |s|
      ensures Bits(t, 8 * k) == Bits(s, n)[..8 * k]
    {
      BitsTake(s, 8 * k, n);
      BitsOfPrefix(t, s, 8 * k);
    }

    /** Byte m becomes the first. */
    method KeepByte(m: int)
      requires Writing() && 0 <= m <= nbBits / 8
      modifies chars
      ensures Bits(chars[..], bitPtr) == Bits(old(chars[..])[m..], bitPtr)
      ensures m == charPtr ==> Clear(chars[0], bitPtr)
    {
      hide Clear, Bits;
      ghost var s := chars[..];
      if bitPtr > 0 {
        chars[0] := chars[m];
        BitsOfPrefix(chars[..], s[m..], bitPtr);
      } else {
        ClearByte(0);
        assert Bits(s[m..], 0) == Bits(chars[..], 0) == [];
      }
    }

    /** Drain the complete bytes, keeping as many bits as the last, partial one has. With room for all of them what
        stays is the rest of the stream; with less room the stream is cut: it stays the start of the first byte there
        was no room for, and the code leaves that byte's other bits in place, so that it is no longer ready for
        packing. */
    method WriteWholeBytes(maxBytes: nat) returns (out: array<bv8>)
      requires Writing()
      modifies this`nbBits, this`charPtr, chars
      ensures Valid() && fresh(out)
      ensures out.Length == if maxBytes < old(nbBits) / 8 then maxBytes else old(nbBits) / 8
      ensures Bits(out[..], 8 * out.Length) == old(Contents())[..8 * out.Length]
      ensures Contents() == old(Contents())[8 * out.Length..8 * out.Length + old(nbBits) % 8]
      ensures maxBytes >= old(nbBits) / 8 ==> Writing() && Contents() == old(Contents())[8 * out.Length..]
    {
      hide Clear, Bits;
      ghost var s, n := chars[..], nbBits;
      var m := if maxBytes > nbBits / 8 then nbBits / 8 else maxBytes;
      out := CopyOut(m);
      PrefixBits(s, out[..], m, n);
      BitsMiddle(s, m, n, n % 8);
      KeepByte(m);
      charPtr := 0;
      nbBits := nbBits % 8;
    }

    /** Load a packet; a borrowed buffer takes only what fits. */
    method ReadFrom(input: array<bv8>)
      requires chars.Length == bufSize && input != chars
      modifies this`nbBits, this`charPtr, this`bitPtr, this`overflow, this`chars, this`bufSize, chars
      ensures Valid() && Pos() == 0 && !overflow && (chars == old(chars) || fresh(chars))
      ensures var n := if !owner && input.Length > old(bufSize) then old(bufSize) else input.Length;
        Contents() == Bits(input[..n], 8 * n)
    {
      var nchars := input.Length;
      if nchars > bufSize {
        if owner {
          Resize(nchars);
        } else {
          nchars := bufSize;
        }
      }
      CopyIn(input, nchars);
      nbBits := 8 * nchars;
      charPtr := 0;
      bitPtr := 0;
      overflow := false;
      BitsOfPrefix(chars[..], input[..nchars], 8 * nchars);
    }

    method CopyIn(input: array<bv8>, n: int)
      requires 0 <= n <= input.Length && n <= chars.Length && input != chars
      modifies chars
      ensures chars[..n] == input[..n]
    {
      var i := 0;
      while i < n
        invariant 0 <= i <= n
        invariant chars[..i] == input[..i]
      {
        chars[i] := input[i];
        i := i + 1;
      }
    }
  }
}
