/** The 16-bit arithmetic of quant_lsp.c, fixed build: what the encoder keeps of its own quantization and what the
    decoder rebuilds from the indices. */
module LspArithmetic {
  import opened MachineWords
  import opened Remainders

  /** The 65536s that storing n takes away. */
  function Turns(n: int): int { (n + 32768) / 65536 }

  lemma WrapIs(n: int)
    ensures Wrap16(n) == n - 65536 * Turns(n)
    ensures In16(n) <==> Turns(n) == 0
  {}

  lemma WrapEqual(a: int, b: int)
    ensures Wrap16(a) == Wrap16(b) <==> (a - b) % 65536 == 0
  {
    if (a - b) % 65536 == 0 {
      AddMultiple(b + 32768, (a - b) / 65536, 65536);
    } else if Wrap16(a) == Wrap16(b) {
      QuotientUnique(a - b, Turns(a) - Turns(b), 0, 65536);
    }
  }

  /** Storing on the way does not change what is stored in the end. */
  lemma WrapLinear(n: int, k: int, c: int)
    ensures Wrap16(k * Wrap16(n) + c) == Wrap16(k * n + c)
  {
    var t := Turns(n);
    WrapIs(n);
    assert k * (n - 65536 * t) + c == k * n + c + (-(k * t)) * 65536 by {
      Regroup(k, n, t, c);
    }
    AddMultiple(k * n + c + 32768, -(k * t), 65536);
  }

  lemma Regroup(k: int, n: int, t: int, c: int)
    ensures k * (n - 65536 * t) + c == k * n + c + (-(k * t)) * 65536
  {}

  /** PSHR16: a right shift by one or two, rounded to the nearest, halves up. */
  function RoundShift(q: int, shift: nat): (r: int)
    requires 1 <= shift <= 2
    ensures shift == 1 ==> -1 <= q - 2 * r < 1
    ensures shift == 2 ==> -2 <= q - 4 * r < 2
  {
    if shift == 1 then (q + 1) / 2 else (q + 2) / 4
  }

  function Scale(shift: nat): int
    requires 1 <= shift <= 2
  {
    if shift == 1 then 2 else 4
  }

  /** What the encoder ends up with: the input less its scaled-up residual, rounded back. */
  function Kept(lsp: int, residual: int, shift: nat): int
    requires 1 <= shift <= 2
  {
    Wrap16(lsp - Wrap16(RoundShift(Wrap16(residual), shift)))
  }

  /** With the residual e of the scaled-up subtraction, encoder and decoder agree exactly when storing the residual in
      16 bits took away a multiple of the scale. */
  lemma AgreeIff(lsp: int, sum: int, shift: nat)
    requires 1 <= shift <= 2
    ensures var residual := Scale(shift) * (lsp - sum);
      Kept(lsp, residual, shift) == Wrap16(sum) <==> Turns(residual) % Scale(shift) == 0
  {
    var k, residual := Scale(shift), Scale(shift) * (lsp - sum);
    var t := Turns(residual);
    WrapIs(residual);
    var r := lsp - sum - 65536 / k * t;
    assert RoundShift(Wrap16(residual), shift) == r;
    WrapLinear(r, -1, lsp);
    assert Kept(lsp, residual, shift) == Wrap16(sum + 65536 / k * t);
    WrapEqual(sum + 65536 / k * t, sum);
    TurnsMatter(t, shift);
  }

  lemma TurnsMatter(t: int, shift: nat)
    requires 1 <= shift <= 2
    ensures (65536 / Scale(shift) * t) % 65536 == 0 <==> t % Scale(shift) == 0
  {
    var k := Scale(shift);
    if k == 2 {
      QuotientUnique(32768 * t, t / 2, 32768 * (t % 2), 65536);
    } else {
      QuotientUnique(16384 * t, t / 4, 16384 * (t % 4), 65536);
    }
  }

  /** For the inputs there are, that is when the residual fits 16 bits. */
  lemma AgreeWhenFits(lsp: int, sum: int, shift: nat, bound: int)
    requires 1 <= shift <= 2 && bound == 65536 * Scale(shift) - 32768
    requires -bound <= Scale(shift) * (lsp - sum) < bound
    ensures var residual := Scale(shift) * (lsp - sum);
      Kept(lsp, residual, shift) == Wrap16(sum) <==> In16(residual)
  {
    AgreeIff(lsp, sum, shift);
    WrapIs(Scale(shift) * (lsp - sum));
  }
}
