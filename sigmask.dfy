/** Signal sets of the ia32 signal layer. A native `sigset_t` is one 64-bit
    word, bit `sig - 1` standing for signal `sig`; the ia32 view of the same
    set is two 32-bit words (arch/ia64/ia32/ia32_signal.c, `_BLOCKABLE`,
    the `oldmask`/`extramask` words of the plain frame, and the byte counts
    of sys32_rt_sigprocmask). */
module SigMask {
  import opened Bits

  const SIGKILL: bv64 := 9
  const SIGSEGV: bv64 := 11
  const SIGSTOP: bv64 := 19

  /** `sigmask(sig)`: the bit of signal `sig` (1..64). */
  function SigBit(sig: bv64): (b: U64)
    requires 1 <= sig <= 64
  {
    1 << (sig - 1)
  }

  /** Every signal except SIGKILL and SIGSTOP, which can never be blocked. */
  const BLOCKABLE: U64 := !((1 << 8) | (1 << 18))

  /** `sigdelsetmask(&sigs, ~_BLOCKABLE)`: the set with SIGKILL and SIGSTOP
      removed and every other signal kept. */
  function Sanitise(sigs: U64): (r: U64)
    ensures r & SigBit(SIGKILL) == 0 && r & SigBit(SIGSTOP) == 0
    ensures r | SigBit(SIGKILL) | SigBit(SIGSTOP) == sigs | SigBit(SIGKILL) | SigBit(SIGSTOP)
  {
    sigs & BLOCKABLE
  }

  /** Sanitising twice is sanitising once. */
  lemma SanitiseIdempotent(sigs: U64)
    ensures Sanitise(Sanitise(sigs)) == Sanitise(sigs)
  {
  }

  /** The plain frame's `sc.oldmask`: signals 1..32. */
  function OldMask(sigs: U64): U32
  {
    Lo32(sigs)
  }

  /** The plain frame's `extramask[0]`: signals 33..64, the upper four
      bytes of the native set. */
  function ExtraMask(sigs: U64): U32
  {
    sigs >> 32
  }

  /** The set sys32_sigreturn reads back: `oldmask` as the low word and
      `extramask` copied into bytes 4..7. */
  function JoinMask(oldmask: U32, extramask: U32): (sigs: U64)
    ensures OldMask(sigs) == oldmask && ExtraMask(sigs) == extramask
  {
    oldmask | (extramask << 32)
  }

  /** Splitting a set into the two frame words and joining them again gives
      back the set. */
  lemma JoinSplitMask(sigs: U64)
    ensures JoinMask(OldMask(sigs), ExtraMask(sigs)) == sigs
  {
  }

  /** The bits covered by the first `n` bytes of a set (n <= 8). */
  function ByteMask(n: U32): U64
    requires n <= 8
  {
    if n == 0 then 0
    else if n == 1 then 0xFF
    else if n == 2 then 0xFFFF
    else if n == 3 then 0xFF_FFFF
    else if n == 4 then 0xFFFF_FFFF
    else if n == 5 then 0xFF_FFFF_FFFF
    else if n == 6 then 0xFFFF_FFFF_FFFF
    else if n == 7 then 0xFF_FFFF_FFFF_FFFF
    else 0xFFFF_FFFF_FFFF_FFFF
  }

  /** The bits of `src` under `m` and the bits of `dst` elsewhere. */
  function Merge(dst: U64, src: U64, m: U64): (r: U64)
    ensures r & m == src & m
    ensures r & !m == dst & !m
  {
    (dst & !m) | (src & m)
  }

  /** A set with its first `n` bytes copied from `src` and the rest kept
      from `dst`: what a `copy_from_user` or `copy_to_user` of `n` bytes
      leaves. */
  function CopyBytes(dst: U64, src: U64, n: U32): U64
    requires n <= 8
  {
    Merge(dst, src, ByteMask(n))
  }

  /** Copying no bytes keeps the destination. */
  lemma CopyNoBytes(dst: U64, src: U64)
    ensures CopyBytes(dst, src, 0) == dst
  {
  }

  /** Copying all eight bytes copies the whole set. */
  lemma CopyAllBytes(dst: U64, src: U64)
    ensures CopyBytes(dst, src, 8) == src
  {
  }
}
