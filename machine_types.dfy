/** Fixed-width machine integers of the emulator and the wrap-around of
    C++ unsigned arithmetic, written out explicitly. */
module MachineTypes {

  const TWO_8: int := 0x100
  const TWO_16: int := 0x1_0000
  const TWO_32: int := 0x1_0000_0000
  const TWO_64: int := 0x1_0000_0000_0000_0000

  type u8 = x: int | 0 <= x < 0x100
  type u16 = x: int | 0 <= x < 0x1_0000
  type u32 = x: int | 0 <= x < 0x1_0000_0000
  type u64 = x: int | 0 <= x < 0x1_0000_0000_0000_0000

  datatype Option<T> = None | Some(value: T)

  /** The value of an unsigned 64-bit subtraction, `a - b` taken modulo 2^64. */
  function Sub64(a: u64, b: u64): (r: u64)
    ensures a >= b ==> r == a - b
    ensures a < b ==> r == a - b + TWO_64
  {
    (a - b) % TWO_64
  }

  /** Truncation of a 64-bit value to 32 bits, as an assignment to `uInt32`
      does: the 32-bit value congruent to `x` modulo 2^32. */
  function Trunc32(x: u64): (r: u32)
    ensures x < TWO_32 ==> r == x
  {
    x % TWO_32
  }

  /** What `Trunc32` drops is a whole number of 2^32 steps. */
  lemma Trunc32Wraps(x: u64)
    ensures (x - Trunc32(x)) % TWO_32 == 0
    ensures x >= TWO_32 ==> Trunc32(x) < x
  {
  }

  function Pow2(n: nat): (r: nat)
    ensures r >= 1
  {
    if n == 0 then 1 else 2 * Pow2(n - 1)
  }

  /** Bitwise or of the low `n` bits of `a` and `b`, bit by bit from the
      least significant one. */
  function OrBits(a: nat, b: nat, n: nat): (r: nat)
    requires a < Pow2(n) && b < Pow2(n)
    ensures a <= r < Pow2(n) && b <= r
    decreases n
  {
    if n == 0 then 0
    else 2 * OrBits(a / 2, b / 2, n - 1) + (if a % 2 == 1 || b % 2 == 1 then 1 else 0)
  }

  /** The C++ `|` on two 16-bit operands. */
  function Or16(a: u16, b: u16): (r: u16)
    ensures a <= r && b <= r
  {
    Pow2Sixteen();
    OrBits(a, b, 16)
  }

  lemma Pow2Sixteen()
    ensures Pow2(16) == TWO_16
  {
    assert Pow2(1) == 2;
    assert Pow2(2) == 4;
    assert Pow2(3) == 8;
    assert Pow2(4) == 16;
    assert Pow2(5) == 32;
    assert Pow2(6) == 64;
    assert Pow2(7) == 128;
    assert Pow2(8) == 256;
    assert Pow2(9) == 512;
    assert Pow2(10) == 1024;
    assert Pow2(11) == 2048;
    assert Pow2(12) == 4096;
    assert Pow2(13) == 8192;
    assert Pow2(14) == 16384;
    assert Pow2(15) == 32768;
  }
}
