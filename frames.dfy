/** Signal frames of ia32 processes (arch/ia64/ia32/ia32_signal.c,
    get_sigframe, setup_frame_ia32, setup_rt_frame_ia32, sys32_sigreturn and
    sys32_rt_sigreturn): where a frame is placed on the user stack, what it
    holds, and where the return path looks for it again.

    The layouts and constants come from headers that are not part of this
    model (`struct sigframe_ia32`, `struct rt_sigframe_ia32`, the SA_* and
    SS_* flags, `IA32_GATE_OFFSET`, the ia32 system-call numbers); the
    values below are those of the ia64 ia32 headers. */
module Frames {
  import opened Bits
  import opened Outcome
  import opened RegisterView
  import opened SigInfo
  import opened SigAction

  const SA_SIGINFO: U64 := 0x4
  const SA_ONSTACK: U64 := 0x0800_0000
  const SA_RESTORER: U64 := 0x0400_0000

  const SS_ONSTACK: U32 := 1
  const SS_DISABLE: U32 := 2

  /** The ia32 gate page: the sigreturn trampoline is at its start, the
      rt_sigreturn trampoline 8 bytes further. */
  const IA32_GATE_OFFSET: U32 := 0xC000_0000

  const NR_SIGRETURN: U32 := 119
  const NR_RT_SIGRETURN: U32 := 173

  /** `sizeof(struct sigcontext_ia32)` and `sizeof(struct _fpstate_ia32)`. */
  const SIGCONTEXT_SIZE: nat := 88
  const FPSTATE_SIZE: nat := 624

  /** `struct sigframe_ia32`: pretcode +0, sig +4, sc +8, fpstate +96,
      extramask +720, retcode +724; 732 bytes. */
  const SIGFRAME_SIZE: nat := 732
  const SC_OFFSET: nat := 8
  const FPSTATE_OFFSET: nat := 96

  /** `struct rt_sigframe_ia32`: pretcode +0, sig +4, pinfo +8, puc +12,
      info +16 (128 bytes), uc +144, fpstate +264, retcode +888; 896 bytes.
      `struct ucontext_ia32` is uc_flags +0, uc_link +4, uc_stack +8 (three
      ints), uc_mcontext +20 (88 bytes, ending at +108) and uc_sigmask, an
      ia64 `sigset_t` of one unsigned long, aligned to 8 at +112; it is 120
      bytes and 8-aligned, so the mcontext lies at frame +164, the saved
      mask at frame +256 and the FP state right after the ucontext. */
  const RT_SIGFRAME_SIZE: nat := 896
  const RT_INFO_OFFSET: nat := 16
  const RT_UC_OFFSET: nat := 144
  const RT_MCONTEXT_OFFSET: nat := 164
  const RT_FPSTATE_OFFSET: nat := 264

  /** The always-bogus address get_sigframe returns instead of overflowing
      the alternate signal stack: -1 as an unsigned long. */
  const SIGFRAME_FAILED: Addr := 0xFFFF_FFFF_FFFF_FFFF

  /** An abstraction of `access_ok`: the `size` bytes at `addr` lie below
      the task's user limit. The ia64 check proper tests only the start
      address against the limit and relies on the unmapped guard page above
      user space to fault the rest; the model folds both into one range
      test, and a failed store or load after a passing check (a page fault)
      is not modelled. */
  predicate Accessible(limit: Addr, addr: Addr, size: Addr)
  {
    addr + size <= limit
  }

  /** A frame that is accessible as a whole is accessible in its nested
      sigcontext and FP-state records, so the nested checks in
      setup_sigcontext_ia32 and the FP save never fail inside a frame, and
      the addresses of its members do not wrap around. This holds of the
      range test `Accessible`; with ia64's start-address check it holds
      because the nested records start inside the frame. */
  lemma FrameCoversContext(limit: Addr, frame: Addr)
    ensures Accessible(limit, frame, SIGFRAME_SIZE) ==>
      && Accessible(limit, frame + SC_OFFSET, SIGCONTEXT_SIZE) && Accessible(limit, frame + FPSTATE_OFFSET, FPSTATE_SIZE)
      && Wrap(frame + FPSTATE_OFFSET) == frame + FPSTATE_OFFSET
    ensures Accessible(limit, frame, RT_SIGFRAME_SIZE) ==>
      && Accessible(limit, frame + RT_MCONTEXT_OFFSET, SIGCONTEXT_SIZE) && Accessible(limit, frame + RT_FPSTATE_OFFSET, FPSTATE_SIZE)
      && Wrap(frame + RT_FPSTATE_OFFSET) == frame + RT_FPSTATE_OFFSET
      && Wrap(frame + RT_INFO_OFFSET) == frame + RT_INFO_OFFSET && Wrap(frame + RT_UC_OFFSET) == frame + RT_UC_OFFSET
  {
  }

  /** The ia32 stack pointer: `(unsigned int) regs->r12`. */
  function Esp(r12: U64): Addr
  {
    ToAddr(Lo32(r12))
  }

  /** `on_sig_stack(sp)`: `sp` lies in the alternate stack
      [sasSp, sasSp + sasSize), computed with unsigned wrap-around. */
  predicate OnSigStack(sp: Addr, sasSp: Addr, sasSize: Addr)
  {
    Wrap(sp - sasSp) < sasSize
  }

  /** `sas_ss_flags(sp)`: SS_DISABLE when no alternate stack is set up,
      SS_ONSTACK when `sp` is on it, 0 otherwise. */
  function SasSsFlags(sp: Addr, sasSp: Addr, sasSize: Addr): U32
  {
    if sasSize == 0 then SS_DISABLE
    else if OnSigStack(sp, sasSp, sasSize) then SS_ONSTACK
    else 0
  }

  /** The stack top get_sigframe builds below, or None when it gives up:
      the 32-bit stack pointer, or the top of the alternate stack when the
      handler asks for it and the task is not already on it. */
  function StackBase(flags: U64, esp: Addr, sasSp: Addr, sasSize: Addr, size: Addr): Option<Addr>
  {
    if flags & SA_ONSTACK != 0 then
      var onstack := SasSsFlags(esp, sasSp, sasSize);
      if onstack == 0 then Some(Wrap(sasSp + sasSize))
      else if onstack == SS_ONSTACK && !OnSigStack(Wrap(esp - size), sasSp, sasSize) then None
      else Some(esp)
    else Some(esp)
  }

  /** The stack pointer is kept unless the handler asks for the alternate
      stack and one is set up; then a task not yet on it moves to its top,
      and a task already on it keeps its stack pointer unless the frame
      would run off the bottom, in which case get_sigframe gives up. */
  lemma StackBaseCases(flags: U64, esp: Addr, sasSp: Addr, sasSize: Addr, size: Addr)
    ensures flags & SA_ONSTACK == 0 || sasSize == 0 ==> StackBase(flags, esp, sasSp, sasSize, size) == Some(esp)
    ensures flags & SA_ONSTACK != 0 && sasSize != 0 && !OnSigStack(esp, sasSp, sasSize) ==>
      StackBase(flags, esp, sasSp, sasSize, size) == Some(Wrap(sasSp + sasSize))
    ensures flags & SA_ONSTACK != 0 && sasSize != 0 && OnSigStack(esp, sasSp, sasSize) ==>
      StackBase(flags, esp, sasSp, sasSize, size) ==
        if OnSigStack(Wrap(esp - size), sasSp, sasSize) then Some(esp) else None
  {
  }

  /** The i386 ABI alignment `((esp + 4) & -16) - 4`. */
  function Align(esp: Addr): Addr
  {
    Wrap(esp + 4 - (esp + 4) % 16 - 4)
  }

  /** On function entry `(sp + 4) % 16 == 0`, and the aligned pointer is
      at most 15 bytes below `esp`. */
  lemma AlignProps(esp: Addr)
    ensures (Align(esp) + 4) % 16 == 0
    ensures Wrap(esp - Align(esp)) == (esp + 4) % 16
  {
  }

  /** get_sigframe: the address of a new frame of `size` bytes for a task
      whose ia32 stack pointer is `esp`. */
  function GetSigframe(flags: U64, esp: Addr, sasSp: Addr, sasSize: Addr, size: Addr): Addr
  {
    match StackBase(flags, esp, sasSp, sasSize, size)
    case None => SIGFRAME_FAILED
    case Some(b) => Align(Wrap(b - size))
  }

  /** get_sigframe fails exactly when the stack base does; otherwise the
      frame is ABI-aligned and at most 15 bytes below the base less the
      frame size. */
  lemma {:induction false} GetSigframeProps(flags: U64, esp: Addr, sasSp: Addr, sasSize: Addr, size: Addr)
    ensures var p := GetSigframe(flags, esp, sasSp, sasSize, size);
      && (p == SIGFRAME_FAILED <==> StackBase(flags, esp, sasSp, sasSize, size).None?)
      && (StackBase(flags, esp, sasSp, sasSize, size).Some? ==>
           (p + 4) % 16 == 0 && Wrap(Wrap(StackBase(flags, esp, sasSp, sasSize, size).value - size) - p) <= 15)
  {
    match StackBase(flags, esp, sasSp, sasSize, size)
    case None =>
    case Some(b) => AlignProps(Wrap(b - size));
  }

  /** A frame placed on a fresh alternate stack that has room for it and 15
      more bytes lies entirely within that stack. */
  lemma {:induction false} FreshAltStackFrameFits(flags: U64, esp: Addr, sasSp: Addr, sasSize: Addr, size: Addr)
    requires flags & SA_ONSTACK != 0 && sasSize != 0 && !OnSigStack(esp, sasSp, sasSize)
    requires sasSp + sasSize < 0x1_0000_0000_0000_0000
    requires 0 < size && size + 15 <= sasSize
    ensures var p := GetSigframe(flags, esp, sasSp, sasSize, size);
      p != SIGFRAME_FAILED && OnSigStack(p, sasSp, sasSize) && p + size <= sasSp + sasSize
  {
    var top := sasSp + sasSize;
    var p := GetSigframe(flags, esp, sasSp, sasSize, size);
    StackBaseCases(flags, esp, sasSp, sasSize, size);
    AlignProps(Wrap(top - size));
    assert StackBase(flags, esp, sasSp, sasSize, size) == Some(top);
    assert Wrap(top - size) == top - size;
    assert sasSp <= p <= top - size;
  }

  /** The overflow test looks at `esp - size` before alignment, so a frame
      built just above the bottom of the alternate stack may start up to 15
      bytes below it: here 4 bytes. */
  lemma AlignmentCanLeaveAltStack()
    ensures GetSigframe(SA_ONSTACK, 0x1000 + SIGFRAME_SIZE, 0x1000, 0x1000, SIGFRAME_SIZE) == 0xFFC
    ensures OnSigStack(0x1000 + SIGFRAME_SIZE, 0x1000, 0x1000) && OnSigStack(0x1000, 0x1000, 0x1000)
    ensures !OnSigStack(0xFFC, 0x1000, 0x1000)
  {
  }

  /** The signal number written into the frame: translated through the
      execution domain's inverse map for signals below 32 when the domain
      has one. */
  function MapSig(sig: U32, invmap: Option<seq<U8>>): U32
    requires 1 <= sig <= 64
    requires invmap.Some? ==> |invmap.value| == 32
  {
    if invmap.Some? && sig < 32 then invmap.value[sig] else sig
  }

  /** The return address of the handler: the user's restorer when
      SA_RESTORER is set, else the trampoline in the gate page. */
  function Pretcode(flags: U64, handler: U64, gate: U32): U32
  {
    if flags & SA_RESTORER != 0 then SaRestorer(handler) else gate
  }

  /** The little-endian 32-bit value of four bytes. */
  function Le32(b: seq<U8>): U32
    requires |b| == 4
  {
    var b0: U64, b1: U64, b2: U64, b3: U64 := b[0], b[1], b[2], b[3];
    b0 | (b1 << 8) | (b2 << 16) | (b3 << 24)
  }

  const POPL_EAX: U8 := 0x58
  const MOVL_EAX: U8 := 0xB8
  const INT_80: seq<U8> := [0xCD, 0x80]

  /** The plain trampoline `popl %eax; movl $119, %eax; int $0x80`. */
  function PlainRetcode(): (b: seq<U8>)
    ensures |b| == 8
  {
    [0x58, 0xB8, 0x77, 0x00, 0x00, 0x00, 0xCD, 0x80]
  }

  /** The plain trampoline pops the signal number and makes system call 119. */
  lemma PlainRetcodeBytes()
    ensures PlainRetcode()[0] == POPL_EAX && PlainRetcode()[1] == MOVL_EAX
    ensures Le32(PlainRetcode()[2..6]) == NR_SIGRETURN && PlainRetcode()[6..] == INT_80
  {
  }

  /** The rt trampoline `movl $173, %eax; int $0x80`; the eighth byte is not
      written and keeps its previous value `prev`. */
  function RtRetcode(prev: U8): (b: seq<U8>)
    ensures |b| == 8
  {
    [0xB8, 0xAD, 0x00, 0x00, 0x00, 0xCD, 0x80, prev]
  }

  /** The rt trampoline makes system call 173 and leaves its eighth byte. */
  lemma RtRetcodeBytes(prev: U8)
    ensures RtRetcode(prev)[0] == MOVL_EAX
    ensures Le32(RtRetcode(prev)[1..5]) == NR_RT_SIGRETURN && RtRetcode(prev)[5..7] == INT_80
    ensures RtRetcode(prev)[7] == prev
  {
  }

  /** `struct ucontext_ia32` of an rt frame. */
  datatype UContext = UContext(flags: U32, link: U32, ssSp: U32, ssFlags: U32, ssSize: U32,
                               mcontext: SigContext, sigmask: U64)

  /** A signal frame in user memory, apart from its FP state, which is a
      record of its own at the frame's fpstate offset. */
  datatype Frame =
    | Plain(pretcode: U32, sig: U32, sc: SigContext, extramask: U32, retcode: seq<U8>)
    | Rt(pretcode: U32, sig: U32, pinfo: U32, puc: U32, info: CompatSiginfo, uc: UContext, retcode: seq<U8>)

  const ZERO_CONTEXT: SigContext := SigContext(0, 0, 0, 0, 0, 0, 0, 0, 0, 0, 0, 0, 0, 0, 0, 0, 0, 0, 0)

  const ZERO_WORDS: seq<U32> := [0, 0, 0, 0, 0, 0, 0, 0, 0, 0, 0, 0, 0, 0, 0, 0, 0, 0, 0, 0, 0, 0, 0, 0, 0, 0, 0, 0, 0]

  /** Memory no frame was written to reads as zeros. */
  const ZERO_PLAIN: Frame := Plain(0, 0, ZERO_CONTEXT, 0, [0, 0, 0, 0, 0, 0, 0, 0])
  const ZERO_RT: Frame :=
    Rt(0, 0, 0, 0, CompatSiginfo(0, 0, 0, ZERO_WORDS),
       UContext(0, 0, 0, 0, 0, ZERO_CONTEXT, 0), [0, 0, 0, 0, 0, 0, 0, 0])

  /** The plain frame stored at `addr`, or zeros. */
  function ReadPlain(frames: map<Addr, Frame>, addr: Addr): (f: Frame)
    ensures f.Plain? && |f.retcode| == 8
  {
    if addr in frames && frames[addr].Plain? && |frames[addr].retcode| == 8 then frames[addr] else ZERO_PLAIN
  }

  /** An rt frame whose siginfo and trampoline have their fixed sizes. */
  predicate RtShape(f: Frame)
  {
    f.Rt? && CompatShape(f.info) && |f.retcode| == 8
  }

  /** The rt frame stored at `addr`, or zeros. */
  function ReadRt(frames: map<Addr, Frame>, addr: Addr): (f: Frame)
    ensures RtShape(f)
  {
    if addr in frames && RtShape(frames[addr]) then frames[addr] else ZERO_RT
  }

  /** The plain frame setup_frame_ia32 writes at `frame` for signal `sig`
      (already mapped), registers `regs`, `ar.eflag` value `eflag`, blocked
      set `sigs` and an action with flags `flags` and packed handler
      `handler`. */
  function PlainFrame(sig: U32, regs: PtRegs, eflag: U64, frame: Addr, sigs: U64, flags: U64, handler: U64): Frame
  {
    Plain(pretcode := Pretcode(flags, handler, IA32_GATE_OFFSET), sig := sig,
          sc := SaveSigContext(regs, eflag, Lo32(ToWord(Wrap(frame + FPSTATE_OFFSET))), sigs),
          extramask := SigMask.ExtraMask(sigs), retcode := PlainRetcode())
  }

  /** The plain frame holds the mapped signal, the trampoline and its
      address, the saved context pointing at the frame's own FP state, and
      the blocked set split over `sc.oldmask` and `extramask`. */
  lemma {:induction false} PlainFrameFields(sig: U32, regs: PtRegs, eflag: U64, frame: Addr, sigs: U64, flags: U64, handler: U64)
    ensures var f := PlainFrame(sig, regs, eflag, frame, sigs, flags, handler);
      && f.Plain? && f.sig == sig && f.retcode == PlainRetcode()
      && f.pretcode == Pretcode(flags, handler, IA32_GATE_OFFSET)
      && f.sc == SaveSigContext(regs, eflag, Lo32(ToWord(Wrap(frame + FPSTATE_OFFSET))), sigs)
      && SigMask.JoinMask(f.sc.oldmask, f.extramask) == sigs
  {
    SigMask.JoinSplitMask(sigs);
  }

  /** The ucontext of the rt frame at `frame`: no flags and no link, the
      alternate-stack description (its flags taken from the full 64-bit
      `r12`), the saved context pointing at the frame's own FP state, and
      the whole blocked set. */
  function RtUContext(regs: PtRegs, eflag: U64, frame: Addr, sigs: U64, sasSp: Addr, sasSize: Addr): UContext
  {
    UContext(flags := 0, link := 0, ssSp := Lo32(ToWord(sasSp)),
             ssFlags := SasSsFlags(ToAddr(regs.r12), sasSp, sasSize), ssSize := Lo32(ToWord(sasSize)),
             mcontext := SaveSigContext(regs, eflag, Lo32(ToWord(Wrap(frame + RT_FPSTATE_OFFSET))), sigs),
             sigmask := sigs)
  }

  /** The rt frame setup_rt_frame_ia32 writes at `frame` over the previous
      contents `prior`: the plain frame's fields, plus pointers to the
      siginfo and the ucontext, the marshalled siginfo, the alternate-stack
      description (its flags taken from the full 64-bit `r12`) and the whole
      blocked set. */
  function RtFrame(sig: U32, regs: PtRegs, eflag: U64, frame: Addr, sigs: U64, flags: U64, handler: U64,
                   info: Siginfo, sasSp: Addr, sasSize: Addr, prior: Frame): Frame
    requires NativeShape(info) && RtShape(prior)
  {
    var uc := RtUContext(regs, eflag, frame, sigs, sasSp, sasSize);
    Rt(pretcode := Pretcode(flags, handler, IA32_GATE_OFFSET + 8), sig := sig,
       pinfo := Lo32(ToWord(Wrap(frame + RT_INFO_OFFSET))), puc := Lo32(ToWord(Wrap(frame + RT_UC_OFFSET))),
       info := CopySiginfoToUser32(true, prior.info, info).value, uc := uc,
       retcode := RtRetcode(prior.retcode[7]))
  }

  /** The rt frame holds the mapped signal, the trampoline and its address,
      pointers to its own siginfo and ucontext, the marshalled siginfo, the
      saved context pointing at the frame's own FP state, the whole blocked
      set and the alternate-stack description. */
  lemma RtFrameFields(sig: U32, regs: PtRegs, eflag: U64, frame: Addr, sigs: U64, flags: U64, handler: U64,
                      info: Siginfo, sasSp: Addr, sasSize: Addr, prior: Frame)
    requires NativeShape(info) && RtShape(prior)
    ensures var f := RtFrame(sig, regs, eflag, frame, sigs, flags, handler, info, sasSp, sasSize, prior);
      && f.Rt? && f.sig == sig && f.retcode == RtRetcode(prior.retcode[7])
      && f.pretcode == Pretcode(flags, handler, IA32_GATE_OFFSET + 8)
      && f.pinfo == Lo32(ToWord(Wrap(frame + RT_INFO_OFFSET))) && f.puc == Lo32(ToWord(Wrap(frame + RT_UC_OFFSET)))
      && Ok(f.info) == CopySiginfoToUser32(true, prior.info, info)
      && f.uc.mcontext == SaveSigContext(regs, eflag, Lo32(ToWord(Wrap(frame + RT_FPSTATE_OFFSET))), sigs)
      && f.uc.sigmask == sigs && f.uc.flags == 0 && f.uc.link == 0
      && f.uc.ssSp == Lo32(ToWord(sasSp)) && f.uc.ssSize == Lo32(ToWord(sasSize))
      && f.uc.ssFlags == SasSsFlags(ToAddr(regs.r12), sasSp, sasSize)
  {
  }

  /** The frame sys32_sigreturn reads: 8 bytes below the ia32 stack pointer. */
  function SigreturnFrame(r12: U64): Addr
  {
    Wrap(Esp(r12) - 8)
  }

  /** The frame sys32_rt_sigreturn reads: 4 bytes below the ia32 stack pointer. */
  function RtSigreturnFrame(r12: U64): Addr
  {
    Wrap(Esp(r12) - 4)
  }

  /** The handler's return through the gate trampoline pops the return
      address and the signal number, so sys32_sigreturn finds the frame
      that was built at `p`. */
  lemma PlainFrameLookup(p: Addr, r12: U64)
    requires Esp(r12) == p + 8
    ensures SigreturnFrame(r12) == p
  {
  }

  /** The rt trampoline pops only the return address, so
      sys32_rt_sigreturn finds the rt frame built at `p`. */
  lemma RtFrameLookup(p: Addr, r12: U64)
    requires Esp(r12) == p + 4
    ensures RtSigreturnFrame(r12) == p
  {
  }

  /** Delivery then return through a plain frame: sys32_sigreturn, reading
      the frame setup_frame_ia32 stored at `p`, installs the blocked set the
      signal was delivered with, less SIGKILL and SIGSTOP, and gives back
      `r16` and the 32-bit general registers. */
  lemma {:induction false} PlainDeliveryReturn(frames: map<Addr, Frame>, sig: U32, regs: PtRegs, now: PtRegs,
                                               eflag: U64, p: Addr, sigs: U64, flags: U64, handler: U64)
    ensures var f := ReadPlain(frames[p := PlainFrame(sig, regs, eflag, p, sigs, flags, handler)], p);
      && SigMask.Sanitise(SigMask.JoinMask(f.sc.oldmask, f.extramask)) == SigMask.Sanitise(sigs)
      && RestoreRegs(now, f.sc).r16 == regs.r16
      && RestoreRegs(now, f.sc).r12 == Lo32(regs.r12) && RestoreRegs(now, f.sc).crIip == Lo32(regs.crIip)
  {
    PlainFrameFields(sig, regs, eflag, p, sigs, flags, handler);
    var f := PlainFrame(sig, regs, eflag, p, sigs, flags, handler);
    assert ReadPlain(frames[p := f], p) == f;
    SelectorsRoundTrip(regs, now, eflag, Lo32(ToWord(Wrap(p + FPSTATE_OFFSET))), sigs);
    GeneralRoundTrip(regs, now, eflag, Lo32(ToWord(Wrap(p + FPSTATE_OFFSET))), sigs);
  }

  /** Delivery then return through an rt frame: sys32_rt_sigreturn, reading
      the frame setup_rt_frame_ia32 stored at `p`, installs the whole
      blocked set the signal was delivered with, less SIGKILL and SIGSTOP,
      and gives back `r16` and the 32-bit general registers. */
  lemma {:induction false} RtDeliveryReturn(frames: map<Addr, Frame>, sig: U32, regs: PtRegs, now: PtRegs,
                                            eflag: U64, p: Addr, sigs: U64, flags: U64, handler: U64,
                                            info: Siginfo, sasSp: Addr, sasSize: Addr, prior: Frame)
    requires NativeShape(info) && RtShape(prior)
    ensures var f := ReadRt(frames[p := RtFrame(sig, regs, eflag, p, sigs, flags, handler, info, sasSp, sasSize, prior)], p);
      && SigMask.Sanitise(f.uc.sigmask) == SigMask.Sanitise(sigs)
      && RestoreRegs(now, f.uc.mcontext).r16 == regs.r16
      && RestoreRegs(now, f.uc.mcontext).r12 == Lo32(regs.r12)
      && RestoreRegs(now, f.uc.mcontext).crIip == Lo32(regs.crIip)
  {
    RtFrameFields(sig, regs, eflag, p, sigs, flags, handler, info, sasSp, sasSize, prior);
    var f := RtFrame(sig, regs, eflag, p, sigs, flags, handler, info, sasSp, sasSize, prior);
    assert ReadRt(frames[p := f], p) == f;
    SelectorsRoundTrip(regs, now, eflag, Lo32(ToWord(Wrap(p + RT_FPSTATE_OFFSET))), sigs);
    GeneralRoundTrip(regs, now, eflag, Lo32(ToWord(Wrap(p + RT_FPSTATE_OFFSET))), sigs);
  }
}
