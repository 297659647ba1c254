/** Extended-state codec: the legacy `_fpstate_ia32` image and the IA-64
    registers it is translated from and to (arch/ia64/ia32/ia32_signal.c,
    save_ia32_fpstate_live and restore_ia32_fpstate_live).

    The x87 control, status and tag words live in `ar.fcr` and `ar.fsr`,
    the instruction and data pointers in `ar.fir` and `ar.fdr`, and the SSE
    control/status word is split between the upper halves of `ar.fcr` and
    `ar.fsr`. The eight x87 stack registers are f8..f15, stored in the image
    rotated by the top-of-stack field of the status word; the eight XMM
    registers are the sixteen 64-bit registers f16..f31 taken in pairs. The
    80-bit contents of a stack register are opaque here: the conversions
    between the IA-64 register format and the ia32 memory format are not
    part of this model. */
module FpCodec {
  import opened Bits

  /** The ia32 memory image of one x87 stack register, treated as opaque bits. */
  type Fp80 = bv80

  /** One XMM register: bits 0..63 and bits 64..127. */
  datatype Xmm = Xmm(lo: U64, hi: U64)

  /** The fields of `struct _fpstate_ia32` the codec reads or writes. */
  datatype FpState = FpState(
    cw: U32, sw: U32, tag: U32, ipoff: U32, cssel: U32, dataoff: U32, datasel: U32,
    st: seq<Fp80>, status: U16, magic: U16, mxcsr: U32, xmm: seq<Xmm>)

  /** `_st[8]` and `_xmm[8]` are fixed-size arrays. */
  predicate ImageShape(img: FpState)
  {
    |img.st| == 8 && |img.xmm| == 8
  }

  /** The IA-64 floating-point state the codec touches: the four control
      application registers, the x87 stack registers f8..f15 and the 64-bit
      registers f16..f31. */
  datatype FpRegs = FpRegs(fsr: U64, fcr: U64, fir: U64, fdr: U64, stack: seq<Fp80>, halves: seq<U64>)

  predicate RegsShape(n: FpRegs)
  {
    |n.stack| == 8 && |n.halves| == 16
  }

  /** Bits of the status word cleared before the handler runs, as fnclex
      would: the exception flags 0..7 and the busy bit 15. */
  const FSR_CLEAR_MASK: U64 := 0x80FF

  /** The bits of `ar.fcr` a restore replaces: the x87 control word bits
      covered by 0x1f3f and the bits 36 and 40..47 covered by the MXCSR
      mask 0xff10 shifted into the upper half. */
  const FCR_RESTORE_MASK: U64 := 0xFF10_0000_1F3F

  /** The bits of `ar.fsr` a restore replaces: 0..37. */
  const FSR_RESTORE_MASK: U64 := 0x3F_FFFF_FFFF

  /** The bits of `ar.fir` and `ar.fdr` a restore replaces: 0..47. */
  const ADDR_RESTORE_MASK: U64 := 0xFFFF_FFFF_FFFF

  /** The status word after save_ia32_fpstate_live: exactly bits 0..7 and
      15 are cleared, every other bit is kept. */
  function ClearedFsr(fsr: U64): U64
  {
    fsr & !FSR_CLEAR_MASK
  }

  /** The exception flags and the busy bit are clear afterwards and every
      other bit is the one before. */
  lemma ClearedFsrBits(fsr: U64)
    ensures ClearedFsr(fsr) & FSR_CLEAR_MASK == 0
    ensures ClearedFsr(fsr) & !FSR_CLEAR_MASK == fsr & !FSR_CLEAR_MASK
  {
  }

  /** The top-of-stack field, bits 11..13 of a status word. */
  function Tos(fsr: U64): (t: nat)
    ensures t < 8
  {
    var t := (fsr >> 11) & 7;
    if t == 0 then 0 else if t == 1 then 1 else if t == 2 then 2 else if t == 3 then 3
    else if t == 4 then 4 else if t == 5 then 5 else if t == 6 then 6 else 7
  }

  /** Clearing the exception state does not move the top of stack. */
  lemma ClearKeepsTos(fsr: U64)
    ensures Tos(ClearedFsr(fsr)) == Tos(fsr)
  {
  }

  /** The image slot of stack register f(8+i), the source's
      `(i + ((8 - tos) & 7)) & 7`. */
  function Slot(i: nat, tos: nat): (j: nat)
    requires i < 8 && tos < 8
    ensures j < 8
  {
    if i >= tos then i - tos else i + 8 - tos
  }

  /** The stack register held in image slot `j`: `(j + tos) mod 8`. */
  function Reg(j: nat, tos: nat): (i: nat)
    requires j < 8 && tos < 8
    ensures i < 8
  {
    if j + tos < 8 then j + tos else j + tos - 8
  }

  /** Slot and Reg are the rotations the source computes modulo 8. */
  lemma RotationsModEight(i: nat, tos: nat)
    requires i < 8 && tos < 8
    ensures Slot(i, tos) == (i + (8 - tos) % 8) % 8
    ensures Reg(i, tos) == (i + tos) % 8
  {
  }

  /** The rotation is a permutation of the eight slots: Reg undoes Slot and
      Slot undoes Reg, so distinct registers go to distinct slots and every
      slot receives a register. */
  lemma SlotIsPermutation(tos: nat)
    requires tos < 8
    ensures forall i :: 0 <= i < 8 ==> Reg(Slot(i, tos), tos) == i
    ensures forall j :: 0 <= j < 8 ==> Slot(Reg(j, tos), tos) == j
  {
  }

  /** `_st` as written by a save: register f(8+i) lands in slot Slot(i, tos). */
  function SaveStack(regs: seq<Fp80>, tos: nat): (st: seq<Fp80>)
    requires |regs| == 8 && tos < 8
    ensures |st| == 8
  {
    seq(8, j requires 0 <= j < 8 => regs[Reg(j, tos)])
  }

  /** Saving puts register f(8+i) into slot Slot(i, tos). */
  lemma {:induction false} SaveStackPlaces(regs: seq<Fp80>, tos: nat)
    requires |regs| == 8 && tos < 8
    ensures forall i :: 0 <= i < 8 ==> SaveStack(regs, tos)[Slot(i, tos)] == regs[i]
  {
    SlotIsPermutation(tos);
  }

  /** f8..f15 as loaded by a restore: register f(8+i) is read from slot
      Slot(i, tos), so slot `j` goes to register Reg(j, tos). */
  function LoadStack(st: seq<Fp80>, tos: nat): (regs: seq<Fp80>)
    requires |st| == 8 && tos < 8
    ensures |regs| == 8
  {
    seq(8, i requires 0 <= i < 8 => st[Slot(i, tos)])
  }

  /** Loading puts slot `j` into register Reg(j, tos). */
  lemma {:induction false} LoadStackPlaces(st: seq<Fp80>, tos: nat)
    requires |st| == 8 && tos < 8
    ensures forall j :: 0 <= j < 8 ==> LoadStack(st, tos)[Reg(j, tos)] == st[j]
  {
    SlotIsPermutation(tos);
  }

  /** Loading with the same top of stack undoes saving. */
  lemma {:induction false} LoadSaveStack(regs: seq<Fp80>, tos: nat)
    requires |regs| == 8 && tos < 8
    ensures LoadStack(SaveStack(regs, tos), tos) == regs
  {
    var back := LoadStack(SaveStack(regs, tos), tos);
    SlotIsPermutation(tos);
    forall i | 0 <= i < 8
      ensures back[i] == regs[i]
    {
      assert back[i] == SaveStack(regs, tos)[Slot(i, tos)];
    }
  }

  /** Saving with the same top of stack undoes loading. */
  lemma {:induction false} SaveLoadStack(st: seq<Fp80>, tos: nat)
    requires |st| == 8 && tos < 8
    ensures SaveStack(LoadStack(st, tos), tos) == st
  {
    var back := SaveStack(LoadStack(st, tos), tos);
    SlotIsPermutation(tos);
    forall j | 0 <= j < 8
      ensures back[j] == st[j]
    {
      assert back[j] == LoadStack(st, tos)[Reg(j, tos)];
    }
  }

  /** `_xmm[k]` built from f(16+2k) (low half) and f(17+2k) (high half). */
  function PackXmm(halves: seq<U64>): (x: seq<Xmm>)
    requires |halves| == 16
    ensures |x| == 8
  {
    seq(8, k requires 0 <= k < 8 => Xmm(halves[2 * k], halves[2 * k + 1]))
  }

  /** f16..f31 loaded from `_xmm`: even registers from the low halves, odd
      ones from the high halves. */
  function UnpackXmm(x: seq<Xmm>): (halves: seq<U64>)
    requires |x| == 8
    ensures |halves| == 16
  {
    seq(16, i requires 0 <= i < 16 => if i % 2 == 0 then x[i / 2].lo else x[i / 2].hi)
  }

  /** Unpacking undoes packing: f16..f31 come back from `_xmm`. */
  lemma {:induction false} UnpackPackXmm(halves: seq<U64>)
    requires |halves| == 16
    ensures UnpackXmm(PackXmm(halves)) == halves
  {
    var x := PackXmm(halves);
    var h := UnpackXmm(x);
    forall i | 0 <= i < 16
      ensures h[i] == halves[i]
    {
      var k := i / 2;
      assert x[k] == Xmm(halves[2 * k], halves[2 * k + 1]);
      if i % 2 == 0 {
        assert h[i] == x[k].lo && 2 * k == i;
      } else {
        assert h[i] == x[k].hi && 2 * k + 1 == i;
      }
    }
  }

  /** Packing undoes unpacking: every `_xmm[k]` comes back from f16..f31. */
  lemma {:induction false} PackUnpackXmm(x: seq<Xmm>)
    requires |x| == 8
    ensures PackXmm(UnpackXmm(x)) == x
  {
    var h := UnpackXmm(x);
    var y := PackXmm(h);
    forall k | 0 <= k < 8
      ensures y[k] == x[k]
    {
      var e, o := 2 * k, 2 * k + 1;
      assert e % 2 == 0 && e / 2 == k && o % 2 == 1 && o / 2 == k;
      assert h[e] == x[k].lo && h[o] == x[k].hi;
    }
  }

  /** The saved MXCSR: bits 7..15 from `ar.fcr` bits 39..47 and bits 0..5
      from `ar.fsr` bits 32..37; bit 6 is zero. */
  function SavedMxcsr(fcr: U64, fsr: U64): U64
  {
    ((fcr >> 32) & 0xFF80) | ((fsr >> 32) & 0x3F)
  }

  /** Where the bits of the saved MXCSR come from. */
  lemma SavedMxcsrBits(fcr: U64, fsr: U64)
    ensures SavedMxcsr(fcr, fsr) < 0x1_0000
    ensures SavedMxcsr(fcr, fsr) & 0x40 == 0
    ensures SavedMxcsr(fcr, fsr) >> 7 == (fcr >> 39) & 0x1FF
    ensures SavedMxcsr(fcr, fsr) & 0x3F == (fsr >> 32) & 0x3F
  {
  }

  /** The image made of the control registers `fcr`, `fsr`, `fir`, `fdr`
      and the already arranged `_st` and `_xmm` arrays. */
  function ImageFrom(fcr: U64, fsr: U64, fir: U64, fdr: U64, st: seq<Fp80>, xmm: seq<Xmm>): FpState
  {
    FpState(
      cw := fcr & 0xFFFF, sw := fsr & 0xFFFF, tag := (fsr >> 16) & 0xFFFF,
      ipoff := Lo32(fir), cssel := (fir >> 32) & 0xFFFF,
      dataoff := Lo32(fdr), datasel := (fdr >> 32) & 0xFFFF,
      st := st, status := fsr & 0xFFFF, magic := 0,
      mxcsr := SavedMxcsr(fcr, fsr) & 0xFFFF, xmm := xmm)
  }

  /** The image save_ia32_fpstate_live writes for the live state `n`. */
  function SaveImage(n: FpRegs): (img: FpState)
    requires RegsShape(n)
    ensures ImageShape(img)
  {
    ImageFrom(n.fcr, n.fsr, n.fir, n.fdr, SaveStack(n.stack, Tos(n.fsr)), PackXmm(n.halves))
  }

  /** The image records the status word twice and its top of stack, holds
      every stack register in its rotated slot and every XMM register, and
      is marked with X86_FXSR_MAGIC (0), that is, as an image that carries
      the SSE part. */
  lemma {:induction false} SaveImageFields(n: FpRegs)
    requires RegsShape(n)
    ensures var img := SaveImage(n);
      && img.sw == img.status && Tos(img.sw) == Tos(n.fsr) && img.magic == 0
      && (forall i :: 0 <= i < 8 ==> img.st[Slot(i, Tos(n.fsr))] == n.stack[i])
      && UnpackXmm(img.xmm) == n.halves
  {
    SaveStackPlaces(n.stack, Tos(n.fsr));
    UnpackPackXmm(n.halves);
  }

  /** The restored status word: when no exception flag (bits 0..6) is set,
      the error-summary bit 7 and the busy bit 15 are cleared as well. */
  function CorrectSw(sw: U32): U32
  {
    if sw & 0x7F == 0 then sw & !0x8080 else sw
  }

  /** `ar.fcr` after a restore: the control word bits come from `cw`, bits
      36 and 40..47 from `mxcsr & 0xff10`, every other bit stays live. */
  function RestoreFcr(fcr: U64, cw: U32, mxcsr: U32): U64
  {
    var num64 := ((mxcsr & 0xFF10) << 32) | (cw & 0x1F3F);
    (fcr & !FCR_RESTORE_MASK) | num64
  }

  /** Where the bits of the restored `ar.fcr` come from. */
  lemma RestoreFcrBits(fcr: U64, cw: U32, mxcsr: U32)
    ensures RestoreFcr(fcr, cw, mxcsr) & !FCR_RESTORE_MASK == fcr & !FCR_RESTORE_MASK
    ensures RestoreFcr(fcr, cw, mxcsr) & 0x1F3F == cw & 0x1F3F
    ensures (RestoreFcr(fcr, cw, mxcsr) >> 32) & 0xFF10 == mxcsr & 0xFF10
  {
  }

  /** `ar.fsr` after a restore: bits 0..15 from the corrected `sw`, 16..31
      from `tag`, 32..37 from `mxcsr`, bits 38 and up stay live. */
  function RestoreFsr(fsr: U64, sw: U32, tag: U32, mxcsr: U32): U64
  {
    var lo := CorrectSw(sw);
    var num64 := (((((mxcsr & 0x3F) << 16) | (tag & 0xFFFF))) << 16) | (lo & 0xFFFF);
    (fsr & !FSR_RESTORE_MASK) | num64
  }

  /** Where the bits of the restored `ar.fsr` come from; the status word is
      the image's with bits 7 and 15 cleared exactly when no exception flag
      0..6 is set. */
  lemma RestoreFsrBits(fsr: U64, sw: U32, tag: U32, mxcsr: U32)
    ensures RestoreFsr(fsr, sw, tag, mxcsr) & !FSR_RESTORE_MASK == fsr & !FSR_RESTORE_MASK
    ensures RestoreFsr(fsr, sw, tag, mxcsr) & 0xFFFF ==
      (if sw & 0x7F == 0 then sw & !0x8080 else sw) & 0xFFFF
    ensures (RestoreFsr(fsr, sw, tag, mxcsr) >> 16) & 0xFFFF == tag & 0xFFFF
    ensures (RestoreFsr(fsr, sw, tag, mxcsr) >> 32) & 0x3F == mxcsr & 0x3F
  {
  }

  /** `ar.fir` or `ar.fdr` after a restore: bits 0..31 from the offset,
      32..47 from the selector, bits 48 and up stay live. */
  function RestoreAddr(reg: U64, off: U32, sel: U32): U64
  {
    (reg & !ADDR_RESTORE_MASK) | (((sel & 0xFFFF) << 32) | off)
  }

  /** Where the bits of a restored `ar.fir` or `ar.fdr` come from. */
  lemma RestoreAddrBits(reg: U64, off: U32, sel: U32)
    ensures RestoreAddr(reg, off, sel) & !ADDR_RESTORE_MASK == reg & !ADDR_RESTORE_MASK
    ensures RestoreAddr(reg, off, sel) & 0xFFFF_FFFF == off
    ensures (RestoreAddr(reg, off, sel) >> 32) & 0xFFFF == sel & 0xFFFF
  {
  }

  /** The state restore_ia32_fpstate_live leaves behind for live state `n`
      and image `img`. The stack registers are placed by the top of stack
      of the restored status word, which is the one recorded in `sw`. */
  function RestoreImage(n: FpRegs, img: FpState): (r: FpRegs)
    requires RegsShape(n) && ImageShape(img)
    ensures RegsShape(r)
  {
    var fsr := RestoreFsr(n.fsr, img.sw, img.tag, img.mxcsr);
    FpRegs(
      fsr := fsr,
      fcr := RestoreFcr(n.fcr, img.cw, img.mxcsr),
      fir := RestoreAddr(n.fir, img.ipoff, img.cssel),
      fdr := RestoreAddr(n.fdr, img.dataoff, img.datasel),
      stack := LoadStack(img.st, Tos(fsr)),
      halves := UnpackXmm(img.xmm))
  }

  /** The restored top of stack is the image's, every image slot lands in
      its rotated register and the XMM registers come back from `_xmm`. */
  lemma {:induction false} RestoreImageFields(n: FpRegs, img: FpState)
    requires RegsShape(n) && ImageShape(img)
    ensures var r := RestoreImage(n, img);
      && Tos(r.fsr) == Tos(img.sw)
      && (forall j :: 0 <= j < 8 ==> r.stack[Reg(j, Tos(img.sw))] == img.st[j])
      && PackXmm(r.halves) == img.xmm
  {
    var fsr := RestoreFsr(n.fsr, img.sw, img.tag, img.mxcsr);
    assert Tos(fsr) == Tos(img.sw);
    LoadStackPlaces(img.st, Tos(fsr));
    PackUnpackXmm(img.xmm);
  }

  /** Save then restore, whatever the live state at restore time: every
      stack register returns to its own register. */
  lemma {:induction false} StackRoundTrip(n: FpRegs, live: FpRegs)
    requires RegsShape(n) && RegsShape(live)
    ensures RestoreImage(live, SaveImage(n)).stack == n.stack
  {
    var img := SaveImage(n);
    SaveImageFields(n);
    RestoreImageFields(live, img);
    LoadSaveStack(n.stack, Tos(n.fsr));
  }

  /** Save then restore gives back f16..f31. */
  lemma {:induction false} HalvesRoundTrip(n: FpRegs, live: FpRegs)
    requires RegsShape(n) && RegsShape(live)
    ensures RestoreImage(live, SaveImage(n)).halves == n.halves
  {
    UnpackPackXmm(n.halves);
  }

  /** Save then restore gives back bits 0..47 of `ar.fir` and `ar.fdr`; the
      upper bits are those of the live registers. */
  lemma AddrRoundTrip(n: FpRegs, live: FpRegs)
    requires RegsShape(n) && RegsShape(live)
    ensures RestoreImage(live, SaveImage(n)).fir ==
      (live.fir & !ADDR_RESTORE_MASK) | (n.fir & ADDR_RESTORE_MASK)
    ensures RestoreImage(live, SaveImage(n)).fdr ==
      (live.fdr & !ADDR_RESTORE_MASK) | (n.fdr & ADDR_RESTORE_MASK)
  {
  }

  /** Save then restore of the status word when some exception flag was
      set, with the live `ar.fsr` left as the save set it: the register
      comes back bit for bit. */
  lemma FsrRoundTripFault(n: FpRegs, live: FpRegs)
    requires RegsShape(n) && RegsShape(live) && live.fsr == ClearedFsr(n.fsr)
    requires n.fsr & 0x7F != 0
    ensures RestoreImage(live, SaveImage(n)).fsr == n.fsr
  {
  }

  /** Save then restore of the status word when no exception flag was set,
      with the live `ar.fsr` left as the save set it: the register comes
      back with the error-summary bit 7 and the busy bit 15 cleared. */
  lemma FsrRoundTripQuiet(n: FpRegs, live: FpRegs)
    requires RegsShape(n) && RegsShape(live) && live.fsr == ClearedFsr(n.fsr)
    requires n.fsr & 0x7F == 0
    ensures RestoreImage(live, SaveImage(n)).fsr == n.fsr & !0x8080
  {
  }

  /** Save then restore of the control register, with `ar.fcr` unchanged
      in between: everything comes back except bit 36, which takes bit 36
      of the status register. The save stores MXCSR bits 7..15 and the
      restore reads back bits 4 and 8..15, so bit 39 is never restored from
      the image. */
  lemma FcrRoundTrip(n: FpRegs, live: FpRegs)
    requires RegsShape(n) && RegsShape(live) && live.fcr == n.fcr
    ensures RestoreImage(live, SaveImage(n)).fcr ==
      (n.fcr & !0x10_0000_0000) | (n.fsr & 0x10_0000_0000)
  {
  }
}
