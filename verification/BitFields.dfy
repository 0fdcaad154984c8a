/** Numbers as runs of bits, most significant first: what speex_bits_pack writes and speex_bits_unpack_unsigned
    reads back. */
module BitFields {
  import opened Remainders

  function Pow2(n: nat): (p: nat)
    ensures p > 0
  {
    if n == 0 then 1 else 2 * Pow2(n - 1)
  }

  /** The low width bits of data, most significant first; a negative data is its two's complement. */
  function Field(data: int, width: nat): (bits: seq<bool>)
    ensures |bits| == width
    decreases width
  {
    if width == 0 then [] else Field(data / 2, width - 1) + [data % 2 == 1]
  }

  /** The number a run of bits stands for. */
  function Value(bits: seq<bool>): (v: nat)
    ensures v < Pow2(|bits|)
  {
    if bits == [] then 0 else 2 * Value(bits[..|bits| - 1]) + (if bits[|bits| - 1] then 1 else 0)
  }

  lemma HalfMod(d: int, p: nat)
    requires p > 0
    ensures 2 * ((d / 2) % p) + d % 2 == d % (2 * p)
  {
    var q, r := (d / 2) / p, (d / 2) % p;
    assert d / 2 == q * p + r;
    assert d == 2 * (q * p + r) + d % 2;
    assert d == q * (2 * p) + (2 * r + d % 2);
    QuotientUnique(d, q, 2 * r + d % 2, 2 * p);
  }

  /** Reading a field back gives the value modulo two to its width. */
  lemma {:induction false} ValueOfField(data: int, width: nat)
    ensures Value(Field(data, width)) == data % Pow2(width)
    decreases width
  {
    if width > 0 {
      ValueOfField(data / 2, width - 1);
      HalfMod(data, Pow2(width - 1));
      var bits := Field(data, width);
      assert bits[..|bits| - 1] == Field(data / 2, width - 1);
    }
  }

  /** And every run of bits is the field of its value. */
  lemma {:induction false} FieldOfValue(bits: seq<bool>)
    ensures Field(Value(bits), |bits|) == bits
  {
    if bits != [] {
      var front := bits[..|bits| - 1];
      FieldOfValue(front);
      assert Value(bits) / 2 == Value(front);
      assert bits == front + [bits[|bits| - 1]];
    }
  }

  lemma FieldValueInRange(data: nat, width: nat)
    requires data < Pow2(width)
    ensures Value(Field(data, width)) == data
  {
    ValueOfField(data, width);
    QuotientUnique(data, 0, data, Pow2(width));
  }

  /** A field written in two parts, high part first. */
  lemma {:induction false} FieldSplits(high: int, low: nat, m: nat, n: nat)
    requires low < Pow2(n)
    ensures Field(high * Pow2(n) + low, m + n) == Field(high, m) + Field(low, n)
    decreases n
  {
    if n == 0 {
      assert high * Pow2(n) + low == high;
      assert Field(high, m) + [] == Field(high, m);
    } else {
      FieldSplits(high, low / 2, m, n - 1);
      HalvesOfJoined(high, Pow2(n - 1), low);
      assert Pow2(n) == 2 * Pow2(n - 1);
      assert Field(high, m) + (Field(low / 2, n - 1) + [low % 2 == 1])
          == (Field(high, m) + Field(low / 2, n - 1)) + [low % 2 == 1];
    }
  }

  lemma HalvesOfJoined(high: int, p: nat, low: nat)
    ensures (high * (2 * p) + low) / 2 == high * p + low / 2
    ensures (high * (2 * p) + low) % 2 == low % 2
  {
    assert high * (2 * p) == 2 * (high * p);
  }

  /** Each bit of a field, found by shifting. */
  lemma {:induction false} FieldBit(data: int, width: nat, i: nat)
    requires i < width
    ensures Field(data, width)[i] == ((data / Pow2(width - 1 - i)) % 2 == 1)
    decreases width
  {
    if i < width - 1 {
      FieldBit(data / 2, width - 1, i);
      DivDiv(data, Pow2(width - 2 - i));
      assert Pow2(width - 1 - i) == 2 * Pow2(width - 2 - i);
    } else {
      assert Pow2(0) == 1;
    }
  }

  lemma DivDiv(d: int, p: nat)
    requires p > 0
    ensures (d / 2) / p == d / (2 * p)
  {
    HalfMod(d, p);
    var q := (d / 2) / p;
    assert d / 2 == q * p + (d / 2) % p;
    assert d == q * (2 * p) + d % (2 * p);
    QuotientUnique(d, q, d % (2 * p), 2 * p);
  }

  /** Only the low bits matter. */
  lemma {:induction false} FieldModulo(data: int, width: nat, n: nat)
    requires width <= n
    ensures Field(data % Pow2(n), width) == Field(data, width)
    decreases width
  {
    if width > 0 {
      FieldModulo(data / 2, width - 1, n - 1);
      HalfMod(data, Pow2(n - 1));
      var d := data % Pow2(n);
      assert d == 2 * ((data / 2) % Pow2(n - 1)) + data % 2;
      assert d / 2 == (data / 2) % Pow2(n - 1) && d % 2 == data % 2;
    }
  }

  /** Streams that are equal start with equal parts of equal length. */
  lemma SplitEqual(a: seq<bool>, x: seq<bool>, b: seq<bool>, y: seq<bool>)
    requires |a| == |b| && a + x == b + y
    ensures a == b && x == y
  {
    assert a == (a + x)[..|a|] && x == (a + x)[|a|..];
    assert b == (b + y)[..|b|] && y == (b + y)[|b|..];
  }

  lemma EqualFields(a: nat, b: nat, width: nat)
    requires a < Pow2(width) && b < Pow2(width) && Field(a, width) == Field(b, width)
    ensures a == b
  {
    FieldValueInRange(a, width);
    FieldValueInRange(b, width);
  }
}
