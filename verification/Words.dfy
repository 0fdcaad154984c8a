/** What variables of 16 and 32 bits hold. */
module MachineWords {

  const HALF_RANGE := 0x8000_0000
  const TURN := 2 * HALF_RANGE

  predicate In16(n: int) { -32768 <= n <= 32767 }

  predicate In32(n: int) { -HALF_RANGE <= n < HALF_RANGE }

  /** What a 16-bit variable holds after n is stored in it. */
  function Wrap16(n: int): (w: int)
    ensures In16(w)
    ensures In16(n) ==> w == n
  {
    (n + 32768) % 65536 - 32768
  }

  /** What a 32-bit register holds after an operation whose exact result is n. */
  function Wrap32(n: int): (w: int)
    ensures In32(w)
    ensures In32(n) ==> w == n
  {
    (n + HALF_RANGE) % TURN - HALF_RANGE
  }
}
