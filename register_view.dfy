/** Register view translator: the ia32 `sigcontext` record and the IA-64
    registers it is packed into (arch/ia64/ia32/ia32_signal.c,
    setup_sigcontext_ia32 and restore_sigcontext_ia32).

    The four data-segment selectors of the ia32 process live in the native
    `r16` (gs at bit 48, fs at 32, es at 16, ds at 0) and cs/ss in `r17`
    (cs at 0, ss at 16). The ia32 `eflags` is not in `pt_regs` at all but in
    the live application register `ar.eflag`. */
module RegisterView {
  import opened Bits

  /** The part of IA-64 `pt_regs` the translator touches. */
  datatype PtRegs = PtRegs(
    r1: U64, r8: U64, r9: U64, r10: U64, r11: U64, r12: U64,
    r13: U64, r14: U64, r15: U64, r16: U64, r17: U64, crIip: U64)

  /** `struct sigcontext_ia32` as written by setup_sigcontext_ia32. The
      selector words are stored as 32-bit words (the selector and its pad);
      restore reads back their low 16 bits. `trapno`, `err` and `cr2` are
      never written (their code is compiled out) and are not modelled. */
  datatype SigContext = SigContext(
    gs: U32, fs: U32, es: U32, ds: U32,
    edi: U32, esi: U32, ebp: U32, esp: U32,
    ebx: U32, edx: U32, ecx: U32, eax: U32,
    eip: U32, cs: U32, eflags: U32, espAtSignal: U32, ss: U32,
    fpstate: U32, oldmask: U32)

  /** The `ar.eflag` bits a sigreturn may change: CF, PF, AF, ZF, SF, TF,
      DF, OF and AC. */
  const EFLAG_RESTORE_MASK: U64 := 0x40DD5

  /** The value restore_sigcontext_ia32 stores in `r1` (orig_eax) to turn
      off system-call restart checks: -1. */
  const NO_SYSCALL: U64 := 0xFFFF_FFFF_FFFF_FFFF

  /** `r16` rebuilt from the four data-segment selectors. Every selector can
      be read back from its own 16-bit lane. */
  function PackR16(gs: U16, fs: U16, es: U16, ds: U16): (r: U64)
    ensures Field16(r, 48) == gs && Field16(r, 32) == fs
    ensures Field16(r, 16) == es && Field16(r, 0) == ds
  {
    (gs << 48) | (fs << 32) | (es << 16) | ds
  }

  /** Any 64-bit `r16` is exactly the packing of its four 16-bit lanes, so
      saving the selectors and restoring them loses nothing. */
  lemma PackR16OfFields(r16: U64)
    ensures PackR16(Field16(r16, 48), Field16(r16, 32), Field16(r16, 16), Field16(r16, 0)) == r16
  {
  }

  /** `r17` rebuilt from cs and ss with "strict" copying: both get their
      requested privilege level forced to 3, and nothing above bit 31 is set. */
  function PackR17(cs: U16, ss: U16): (r: U64)
    ensures Field16(r, 0) == cs | 3 && Field16(r, 16) == ss | 3
    ensures r & 3 == 3 && (r >> 16) & 3 == 3
    ensures r >> 32 == 0
  {
    (cs | 3) | ((ss | 3) << 16)
  }

  /** The new `ar.eflag`: the bits of EFLAG_RESTORE_MASK come from the saved
      `eflags`, every other bit keeps its live value. */
  function MergeEflag(live: U64, saved: U32): (r: U64)
    ensures r & !EFLAG_RESTORE_MASK == live & !EFLAG_RESTORE_MASK
    ensures r & EFLAG_RESTORE_MASK == saved & EFLAG_RESTORE_MASK
  {
    (live & !EFLAG_RESTORE_MASK) | (saved & EFLAG_RESTORE_MASK)
  }

  /** The sigcontext setup_sigcontext_ia32 writes for registers `regs`, live
      `ar.eflag` value `eflag`, the address `fpPtr` of the saved FP state and
      the first word `mask` of the blocked set. */
  function SaveSigContext(regs: PtRegs, eflag: U64, fpPtr: U32, mask: U64): SigContext
  {
    SigContext(
      gs := Field16(regs.r16, 48), fs := Field16(regs.r16, 32),
      es := Field16(regs.r16, 16), ds := Field16(regs.r16, 0),
      edi := Lo32(regs.r15), esi := Lo32(regs.r14), ebp := Lo32(regs.r13),
      esp := Lo32(regs.r12), ebx := Lo32(regs.r11), edx := Lo32(regs.r10),
      ecx := Lo32(regs.r9), eax := Lo32(regs.r8), eip := Lo32(regs.crIip),
      cs := Field16(regs.r17, 0), eflags := Lo32(eflag),
      espAtSignal := Lo32(regs.r12), ss := Field16(regs.r17, 16),
      fpstate := fpPtr, oldmask := Lo32(mask))
  }

  /** What SaveSigContext records: the four selectors of `r16` (which pack
      back into `r16`), the stack pointer twice, eax, eip, the low half of
      `ar.eflag`, the FP-state pointer and the low word of the mask. */
  lemma SaveSigContextFields(regs: PtRegs, eflag: U64, fpPtr: U32, mask: U64)
    ensures var sc := SaveSigContext(regs, eflag, fpPtr, mask);
      && PackR16(Lo16(sc.gs), Lo16(sc.fs), Lo16(sc.es), Lo16(sc.ds)) == regs.r16
      && sc.esp == sc.espAtSignal == Lo32(regs.r12)
      && sc.eax == Lo32(regs.r8) && sc.eip == Lo32(regs.crIip)
      && sc.eflags == Lo32(eflag) && sc.oldmask == Lo32(mask) && sc.fpstate == fpPtr
  {
  }

  /** The registers restore_sigcontext_ia32 leaves behind: r16/r17 rebuilt
      from scratch, the 32-bit general registers and eip zero-extended, r1
      set to -1, and r8 untouched (eax is handed back as the system call's
      return value instead). */
  function RestoreRegs(regs: PtRegs, sc: SigContext): PtRegs
  {
    regs.(r16 := PackR16(Lo16(sc.gs), Lo16(sc.fs), Lo16(sc.es), Lo16(sc.ds)),
          r17 := PackR17(Lo16(sc.cs), Lo16(sc.ss)),
          r15 := sc.edi, r14 := sc.esi, r13 := sc.ebp,
          r12 := sc.esp, r11 := sc.ebx, r10 := sc.edx,
          r9 := sc.ecx, crIip := sc.eip, r1 := NO_SYSCALL)
  }

  /** What RestoreRegs leaves in each register: every selector in its own
      lane of `r16`, cs and ss with privilege level 3 in `r17`, the saved
      general registers and eip, r8 as it was and r1 = -1. */
  lemma RestoreRegsFields(regs: PtRegs, sc: SigContext)
    ensures var r := RestoreRegs(regs, sc);
      && Field16(r.r16, 48) == Lo16(sc.gs) && Field16(r.r16, 32) == Lo16(sc.fs)
      && Field16(r.r16, 16) == Lo16(sc.es) && Field16(r.r16, 0) == Lo16(sc.ds)
      && r.r17 == PackR17(Lo16(sc.cs), Lo16(sc.ss))
      && r.r15 == sc.edi && r.r14 == sc.esi && r.r13 == sc.ebp
      && r.r12 == sc.esp && r.r11 == sc.ebx && r.r10 == sc.edx
      && r.r9 == sc.ecx && r.crIip == sc.eip
      && r.r8 == regs.r8 && r.r1 == NO_SYSCALL
  {
  }

  /** Saving then restoring a context gives back `r16` bit for bit. */
  lemma {:induction false} SelectorsRoundTrip(regs: PtRegs, now: PtRegs, eflag: U64, fpPtr: U32, mask: U64)
    ensures RestoreRegs(now, SaveSigContext(regs, eflag, fpPtr, mask)).r16 == regs.r16
  {
    PackR16OfFields(regs.r16);
  }

  /** Saving then restoring a context gives back the cs/ss half of `r17`
      with both requested privilege levels forced to 3, and clears its
      upper half. */
  lemma CodeStackRoundTrip(regs: PtRegs, now: PtRegs, eflag: U64, fpPtr: U32, mask: U64)
    ensures RestoreRegs(now, SaveSigContext(regs, eflag, fpPtr, mask)).r17 ==
      (regs.r17 & 0xFFFF_FFFF) | 0x0003_0003
  {
  }

  /** Saving then restoring a context gives back the general registers and
      the instruction pointer truncated to 32 bits; r8 stays what the
      restoring task had and r1 becomes -1. */
  lemma GeneralRoundTrip(regs: PtRegs, now: PtRegs, eflag: U64, fpPtr: U32, mask: U64)
    ensures var r := RestoreRegs(now, SaveSigContext(regs, eflag, fpPtr, mask));
      && r.r9 == Lo32(regs.r9) && r.r10 == Lo32(regs.r10) && r.r11 == Lo32(regs.r11)
      && r.r12 == Lo32(regs.r12) && r.r13 == Lo32(regs.r13) && r.r14 == Lo32(regs.r14)
      && r.r15 == Lo32(regs.r15) && r.crIip == Lo32(regs.crIip)
      && r.r8 == now.r8 && r.r1 == NO_SYSCALL
  {
  }

  /** Restoring with every saved flag set changes exactly the permitted
      flag bits of the live `ar.eflag`, and nothing else. */
  lemma MergeAllOnes(live: U64)
    ensures MergeEflag(live, 0xFFFF_FFFF) == live | EFLAG_RESTORE_MASK
  {
  }
}
