/** Machine words of the ia32 signal layer. Every integer is kept in a
    64-bit bit-vector; the narrower C types (`unsigned int`, `unsigned
    short`, `unsigned char`) are the 64-bit values whose upper bits are zero,
    so a zero extension is the identity and truncations and sign extensions
    are written out as masks. */
module Bits {

  type U64 = bv64
  type U32 = x: bv64 | x <= 0xFFFF_FFFF
  type U16 = x: bv64 | x <= 0xFFFF
  type U8 = x: bv64 | x <= 0xFF

  /** `(unsigned int) x`: keep the low 32 bits. */
  function Lo32(x: U64): U32
  {
    x & 0xFFFF_FFFF
  }

  /** `(unsigned short) x`: keep the low 16 bits. */
  function Lo16(x: U64): U16
  {
    x & 0xFFFF
  }

  /** The 16-bit lane of `x` that starts at bit `shift`, `(x >> shift) & 0xffff`. */
  function Field16(x: U64, shift: bv64): U16
    requires shift <= 48
  {
    (x >> shift) & 0xFFFF
  }

  /** `(long)(int) x`: sign extension of a 32-bit value to 64 bits. */
  function Sext32(x: U32): (r: U64)
    ensures Lo32(r) == x
    ensures x & 0x8000_0000 == 0 ==> r == x
    ensures x & 0x8000_0000 != 0 ==> r >> 32 == 0xFFFF_FFFF
  {
    if x & 0x8000_0000 == 0 then x else x | 0xFFFF_FFFF_0000_0000
  }

  /** `(int)(short) x`, seen as an `unsigned int`: sign extension of the
      low 16 bits of `x` to 32 bits. */
  function Sext16(x: U64): (r: U32)
    ensures Lo16(r) == Lo16(x)
    ensures x & 0x8000 == 0 ==> r == Lo16(x)
    ensures x & 0x8000 != 0 ==> r >> 16 == 0xFFFF
  {
    if x & 0x8000 == 0 then x & 0xFFFF else (x & 0xFFFF) | 0xFFFF_0000
  }

  /** A 32-bit word read as a C `int` is negative exactly when its sign bit is set. */
  predicate Negative32(x: U32)
  {
    x & 0x8000_0000 != 0
  }

  /** A user address: `unsigned long` arithmetic is done on unbounded
      integers and wrapped explicitly, which keeps the solver's work linear. */
  type Addr = x: int | 0 <= x < 0x1_0000_0000_0000_0000

  /** Reduction modulo 2^64, as C's unsigned long arithmetic does, of the
      sum or difference of two addresses. */
  function Wrap(x: int): Addr
    requires -0x1_0000_0000_0000_0000 <= x < 0x2_0000_0000_0000_0000
  {
    if x < 0 then x + 0x1_0000_0000_0000_0000
    else if x < 0x1_0000_0000_0000_0000 then x
    else x - 0x1_0000_0000_0000_0000
  }

  function Pow2(n: nat): (p: nat)
    ensures p >= 1
  {
    if n == 0 then 1 else 2 * Pow2(n - 1)
  }

  lemma Pow2Of64()
    ensures Pow2(64) == 0x1_0000_0000_0000_0000
  {
    assert Pow2(8) == 0x100;
    assert Pow2(16) == 0x1_0000;
    assert Pow2(24) == 0x100_0000;
    assert Pow2(32) == 0x1_0000_0000;
    assert Pow2(40) == 0x100_0000_0000;
    assert Pow2(48) == 0x1_0000_0000_0000;
    assert Pow2(56) == 0x100_0000_0000_0000;
  }

  /** The unsigned value of the low `n` bits of `x`, read bit by bit. */
  function LowBits(x: U64, n: nat): (v: nat)
    requires n <= 64
    ensures v < Pow2(n)
  {
    if n == 0 then 0 else 2 * LowBits(x >> 1, n - 1) + (if x & 1 == 0 then 0 else 1)
  }

  /** The word whose low `n` bits are the low `n` binary digits of `a`. */
  function WordOf(a: nat, n: nat): U64
    requires n <= 64
  {
    if n == 0 then 0 else (WordOf(a / 2, n - 1) << 1) | (if a % 2 == 0 then 0 else 1)
  }

  /** The number of bits in a word. */
  const WORD_BITS: nat := 64

  /** A register value used as an address: its unsigned value. */
  function ToAddr(x: U64): Addr
  {
    Pow2Of64();
    LowBits(x, WORD_BITS)
  }

  /** An address stored in a register: its 64 binary digits. */
  function ToWord(a: Addr): U64
  {
    WordOf(a, WORD_BITS)
  }
}
