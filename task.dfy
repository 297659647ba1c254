/** The state of an ia32 task on IA-64 that signal delivery and return
    change in place (arch/ia64/ia32/ia32_signal.c): the IA-64 registers the
    ia32 process runs in, the live floating-point registers, the task's
    signal masks and its user memory.

    User memory holds records, one per address it was written at: signal
    frames and FP-state images. Memory nothing was written to reads as
    zeros. The only way an access fails is `access_ok`, a range check
    against the task's user limit. */
module Ia32Task {
  import opened Bits
  import opened Outcome
  import opened RegisterView
  import opened FpCodec
  import opened SigInfo
  import opened SigMask
  import opened SigAction
  import opened Frames

  const ZERO_ST: seq<Fp80> := [0, 0, 0, 0, 0, 0, 0, 0]
  const ZERO_XMM: seq<Xmm> := [Xmm(0, 0), Xmm(0, 0), Xmm(0, 0), Xmm(0, 0), Xmm(0, 0), Xmm(0, 0), Xmm(0, 0), Xmm(0, 0)]
  const ZERO_FPSTATE: FpState := FpState(0, 0, 0, 0, 0, 0, 0, ZERO_ST, 0, 0, 0, ZERO_XMM)

  /** The FP-state image stored at `addr`, or zeros. */
  function FpstateAt(images: map<Addr, FpState>, addr: Addr): (img: FpState)
    ensures ImageShape(img)
    ensures addr in images && ImageShape(images[addr]) ==> img == images[addr]
  {
    if addr in images && ImageShape(images[addr]) then images[addr] else ZERO_FPSTATE
  }

  /** A saved context names an FP state (a non-NULL `fpstate`) that
      `access_ok` rejects. */
  predicate FpRestoreFaults(limit: Addr, fpstate: U32)
  {
    fpstate != 0 && !Accessible(limit, ToAddr(fpstate), FPSTATE_SIZE)
  }

  /** The FP registers after restoring a context whose `fpstate` field is
      `fpstate`: unchanged when it is NULL or the restore faults, else
      restored from the image it points at. */
  function RestoredFp(limit: Addr, images: map<Addr, FpState>, fpstate: U32, live: FpRegs): FpRegs
    requires RegsShape(live)
  {
    if fpstate == 0 || FpRestoreFaults(limit, fpstate) then live
    else RestoreImage(live, FpstateAt(images, ToAddr(fpstate)))
  }

  /** The unrolled `_st` loop of save_ia32_fpstate_live: register f(8+i)
      of `live` is copied to image slot Slot(i, tos). */
  method CopyOutStack(live: seq<Fp80>, tos: nat) returns (st: seq<Fp80>)
    requires |live| == 8 && tos < 8
    ensures st == SaveStack(live, tos)
  {
    st := ZERO_ST;
    for i := 0 to 8
      invariant |st| == 8
      invariant forall k :: 0 <= k < i ==> st[Slot(k, tos)] == live[k]
    {
      st := st[Slot(i, tos) := live[i]];
    }
    SlotIsPermutation(tos);
    forall j | 0 <= j < 8
      ensures st[j] == SaveStack(live, tos)[j]
    {
      assert Slot(Reg(j, tos), tos) == j;
    }
  }

  /** The unrolled `_xmm` loop of save_ia32_fpstate_live: `_xmm[k]` is
      f(16+2k) and f(17+2k). */
  method CopyOutXmm(halves: seq<U64>) returns (xmm: seq<Xmm>)
    requires |halves| == 16
    ensures xmm == PackXmm(halves)
  {
    xmm := ZERO_XMM;
    for k := 0 to 8
      invariant |xmm| == 8
      invariant forall j :: 0 <= j < k ==> xmm[j] == Xmm(halves[2 * j], halves[2 * j + 1])
    {
      xmm := xmm[k := Xmm(halves[2 * k], halves[2 * k + 1])];
    }
  }

  /** The unrolled f8..f15 loop of restore_ia32_fpstate_live: register
      f(8+i) is loaded from image slot Slot(i, tos). */
  method CopyInStack(st: seq<Fp80>, tos: nat) returns (regs: seq<Fp80>)
    requires |st| == 8 && tos < 8
    ensures regs == LoadStack(st, tos)
  {
    regs := ZERO_ST;
    for i := 0 to 8
      invariant |regs| == 8
      invariant forall k :: 0 <= k < i ==> regs[k] == st[Slot(k, tos)]
    {
      regs := regs[i := st[Slot(i, tos)]];
    }
  }

  /** The unrolled f16..f31 loop of restore_ia32_fpstate_live. */
  method CopyInXmm(xmm: seq<Xmm>) returns (halves: seq<U64>)
    requires |xmm| == 8
    ensures halves == UnpackXmm(xmm)
  {
    halves := UnpackXmm(ZERO_XMM);
    for k := 0 to 8
      invariant |halves| == 16
      invariant forall j :: 0 <= j < 2 * k ==> halves[j] == UnpackXmm(xmm)[j]
    {
      halves := halves[2 * k := xmm[k].lo][2 * k + 1 := xmm[k].hi];
    }
  }

  /** An ia32 task: its `pt_regs`, `ar.eflag`, its live floating-point
      registers, its blocked and saved signal masks, its alternate signal
      stack and the flags the signal code sets for the rest of the kernel. */
  class Task {
    /** The saved user registers, `struct pt_regs`. */
    var regs: PtRegs
    var eflag: U64
    /** `ar.fsr`, `ar.fcr`, `ar.fir`, `ar.fdr` and f8..f31. */
    var fp: FpRegs
    var blocked: U64
    var savedSigmask: U64
    /** The alternate signal stack, `sas_ss_sp` and `sas_ss_size`. */
    const sasSp: Addr
    const sasSize: Addr
    /** `restart_block.fn == do_no_restart_syscall`. */
    var noRestart: bool
    /** A SIGSEGV was forced on the task (force_sig or force_sigsegv). */
    var segvForced: bool
    /** set_restore_sigmask was called. */
    var restoreSigmask: bool
    /** The end of the user range `access_ok` accepts. */
    const limit: Addr
    /** The user memory: the records written to it, by address. */
    var frames: map<Addr, Frame>
    var fpstates: map<Addr, FpState>

    constructor (limit: Addr, sasSp: Addr, sasSize: Addr)
      ensures this.limit == limit && this.sasSp == sasSp && this.sasSize == sasSize
      ensures frames == map[] && fpstates == map[]
      ensures regs == PtRegs(0, 0, 0, 0, 0, 0, 0, 0, 0, 0, 0, 0) && eflag == 0
      ensures fp == FpRegs(0, 0, 0, 0, ZERO_ST, UnpackXmm(ZERO_XMM)) && RegsShape(fp)
      ensures blocked == 0 && savedSigmask == 0
      ensures !noRestart && !segvForced && !restoreSigmask
    {
      regs := PtRegs(0, 0, 0, 0, 0, 0, 0, 0, 0, 0, 0, 0);
      eflag := 0;
      fp := FpRegs(0, 0, 0, 0, ZERO_ST, UnpackXmm(ZERO_XMM));
      blocked, savedSigmask := 0, 0;
      noRestart, segvForced, restoreSigmask := false, false, false;
      this.limit, this.sasSp, this.sasSize := limit, sasSp, sasSize;
      frames, fpstates := map[], map[];
    }

    /** save_ia32_fpstate_live: write the image of the live FP state at
        `save` and clear the exception state of the live status word. */
    method SaveFpstateLive(save: Addr) returns (err: int)
      requires RegsShape(fp)
      modifies this`fp, this`fpstates
      ensures Accessible(limit, save, FPSTATE_SIZE) ==>
        && err == 0 && fp == old(fp).(fsr := ClearedFsr(old(fp).fsr))
        && fpstates == old(fpstates)[save := SaveImage(old(fp))]
      ensures !Accessible(limit, save, FPSTATE_SIZE) ==>
        err == -EFAULT && fp == old(fp) && fpstates == old(fpstates)
    {
      if !Accessible(limit, save, FPSTATE_SIZE) {
        return -EFAULT;
      }
      var st := CopyOutStack(fp.stack, Tos(fp.fsr));
      var xmm := CopyOutXmm(fp.halves);
      var img := ImageFrom(fp.fcr, fp.fsr, fp.fir, fp.fdr, st, xmm);
      fp := fp.(fsr := ClearedFsr(fp.fsr));
      fpstates := fpstates[save := img];
      return 0;
    }

    /** restore_ia32_fpstate_live: load the live FP state from the image at
        `save`, merging the control registers under their masks. */
    method RestoreFpstateLive(save: Addr) returns (err: int)
      requires RegsShape(fp)
      modifies this`fp
      ensures Accessible(limit, save, FPSTATE_SIZE) ==>
        err == 0 && fp == RestoreImage(old(fp), FpstateAt(old(fpstates), save))
      ensures !Accessible(limit, save, FPSTATE_SIZE) ==>
        err == -EFAULT && fp == old(fp)
    {
      if !Accessible(limit, save, FPSTATE_SIZE) {
        return -EFAULT;
      }
      var img := FpstateAt(fpstates, save);
      var fcr := RestoreFcr(fp.fcr, img.cw, img.mxcsr);
      var fsr := RestoreFsr(fp.fsr, img.sw, img.tag, img.mxcsr);
      var fir := RestoreAddr(fp.fir, img.ipoff, img.cssel);
      var fdr := RestoreAddr(fp.fdr, img.dataoff, img.datasel);
      var stack := CopyInStack(img.st, Tos(fsr));
      var halves := CopyInXmm(img.xmm);
      fp := FpRegs(fsr, fcr, fir, fdr, stack, halves);
      return 0;
    }

    /** setup_sigcontext_ia32 for a context whose own `access_ok` check has
        passed: the context `sc` to be written, built from the registers,
        `ar.eflag`, the FP state saved at `fpAddr` and the first word of the
        blocked set. If the FP state cannot be saved the `fpstate` word is
        not written and keeps its value in `prior`. */
    method SetupSigcontext(fpAddr: Addr, mask: U64, prior: SigContext) returns (err: int, sc: SigContext)
      requires RegsShape(fp)
      modifies this`fp, this`fpstates
      ensures Accessible(limit, fpAddr, FPSTATE_SIZE) ==>
        && err == 0
        && sc == SaveSigContext(old(regs), old(eflag), Lo32(ToWord(fpAddr)), mask)
        && fp == old(fp).(fsr := ClearedFsr(old(fp).fsr))
        && fpstates == old(fpstates)[fpAddr := SaveImage(old(fp))]
      ensures !Accessible(limit, fpAddr, FPSTATE_SIZE) ==>
        && err == -EFAULT
        && sc == SaveSigContext(old(regs), old(eflag), prior.fpstate, mask)
        && fp == old(fp) && fpstates == old(fpstates)
    {
      var r, e := regs, eflag;
      err := SaveFpstateLive(fpAddr);
      var fpPtr := prior.fpstate;
      if err < 0 {
        err := -EFAULT;
      } else {
        fpPtr := Lo32(ToWord(fpAddr));
      }
      sc := SaveSigContext(r, e, fpPtr, mask);
    }

    /** The register half of restore_sigcontext_ia32: pending restarted
        system calls are cancelled, and the registers and the permitted
        `ar.eflag` bits come from `sc`. */
    method RestoreRegisters(sc: SigContext)
      modifies this`noRestart, this`regs, this`eflag
      ensures noRestart
      ensures regs == RestoreRegs(old(regs), sc)
      ensures eflag == MergeEflag(old(eflag), sc.eflags)
    {
      var r := regs;
      r := r.(r16 := PackR16(Lo16(sc.gs), Lo16(sc.fs), Lo16(sc.es), Lo16(sc.ds)));
      r := r.(r15 := sc.edi, r14 := sc.esi, r13 := sc.ebp, r12 := sc.esp);
      r := r.(r11 := sc.ebx, r10 := sc.edx, r9 := sc.ecx, crIip := sc.eip);
      r := r.(r17 := PackR17(Lo16(sc.cs), Lo16(sc.ss)));
      var e := MergeEflag(eflag, sc.eflags);
      r := r.(r1 := NO_SYSCALL);
      noRestart, regs, eflag := true, r, e;
    }

    /** The FP half of restore_sigcontext_ia32: the FP state is restored
        when the saved context names one (`fpstate` non-NULL). The result is
        non-zero exactly when the state named cannot be read. */
    method RestoreNamedFpstate(fpstate: U32) returns (err: int)
      requires RegsShape(fp)
      modifies this`fp
      ensures fp == RestoredFp(limit, old(fpstates), fpstate, old(fp))
      ensures (err == 0) == !FpRestoreFaults(limit, fpstate)
    {
      err := 0;
      if fpstate != 0 {
        err := RestoreFpstateLive(ToAddr(fpstate));
      }
    }

    /** restore_sigcontext_ia32 for a context whose own `access_ok` check
        has passed: the registers, then the FP state, and the saved eax is
        returned. The result `err` is non-zero exactly when the FP state
        named cannot be read; the registers are restored regardless. */
    method RestoreSigcontext(sc: SigContext) returns (err: int, eax: U32)
      requires RegsShape(fp)
      modifies this`noRestart, this`regs, this`eflag, this`fp
      ensures noRestart
      ensures regs == RestoreRegs(old(regs), sc)
      ensures eflag == MergeEflag(old(eflag), sc.eflags)
      ensures fp == RestoredFp(limit, old(fpstates), sc.fpstate, old(fp))
      ensures (err == 0) == !FpRestoreFaults(limit, sc.fpstate)
      ensures eax == sc.eax
    {
      RestoreRegisters(sc);
      err := RestoreNamedFpstate(sc.fpstate);
      eax := sc.eax;
    }

    /** The frame setup_frame_ia32 writes once the frame at `p` has passed
        `access_ok`: the signal number `signo`, the saved context with its
        FP state, the rest of the blocked set and the trampoline. */
    method StorePlainFrame(p: Addr, signo: U32, ka: KSigaction, sigs: U64)
      requires RegsShape(fp) && Accessible(limit, p, SIGFRAME_SIZE)
      modifies this`fp, this`frames, this`fpstates
      ensures frames == old(frames)[p := PlainFrame(signo, old(regs), old(eflag), p, sigs, ka.flags, ka.handler)]
      ensures fpstates == old(fpstates)[p + FPSTATE_OFFSET := SaveImage(old(fp))]
      ensures fp == old(fp).(fsr := ClearedFsr(old(fp).fsr))
    {
      // The nested sigcontext and FP-state checks pass inside the frame.
      FrameCoversContext(limit, p);
      var prior := ReadPlain(frames, p);
      var err, sc := SetupSigcontext(p + FPSTATE_OFFSET, sigs, prior.sc);
      var f := Plain(Pretcode(ka.flags, ka.handler, IA32_GATE_OFFSET), signo, sc, ExtraMask(sigs), PlainRetcode());
      frames := frames[p := f];
    }

    /** The registers a handler is entered with: the stack pointer at the
        frame `p` and the instruction pointer at `handler`. */
    method EnterHandler(p: Addr, handler: U32)
      modifies this`regs
      ensures regs == old(regs).(r12 := ToWord(p), crIip := handler)
    {
      regs := regs.(r12 := ToWord(p), crIip := handler);
    }

    /** setup_frame_ia32: build a plain frame for signal `sig` under the
        action `ka` with blocked set `sigs`, and point the registers at the
        handler. A frame that fails `access_ok` forces SIGSEGV instead and
        changes nothing else. */
    method SetupFrame(sig: U32, ka: KSigaction, invmap: Option<seq<U8>>, sigs: U64) returns (r: int)
      requires RegsShape(fp) && 1 <= sig <= 64 && (invmap.Some? ==> |invmap.value| == 32)
      modifies this`regs, this`segvForced, this`fp, this`frames, this`fpstates
      ensures var p := GetSigframe(ka.flags, Esp(old(regs.r12)), sasSp, sasSize, SIGFRAME_SIZE);
        if !Accessible(limit, p, SIGFRAME_SIZE) then
          && r == 0 && segvForced && regs == old(regs) && fp == old(fp)
          && frames == old(frames) && fpstates == old(fpstates)
        else
          && r == 1 && segvForced == old(segvForced)
          && frames == old(frames)[p := PlainFrame(MapSig(sig, invmap), old(regs), old(eflag), p, sigs, ka.flags, ka.handler)]
          && fpstates == old(fpstates)[p + FPSTATE_OFFSET := SaveImage(old(fp))]
          && fp == old(fp).(fsr := ClearedFsr(old(fp).fsr))
          && regs == old(regs).(r12 := ToWord(p), crIip := SaHandler(ka.handler))
    {
      var p := GetSigframe(ka.flags, Esp(regs.r12), sasSp, sasSize, SIGFRAME_SIZE);
      if !Accessible(limit, p, SIGFRAME_SIZE) {
        segvForced := true;
        return 0;
      }
      StorePlainFrame(p, MapSig(sig, invmap), ka, sigs);
      EnterHandler(p, SaHandler(ka.handler));
      return 1;
    }

    /** The ucontext half of setup_rt_frame_ia32 for a frame at `p` that
        passed `access_ok`: the alternate-stack description, the saved
        context with the FP state saved inside the frame, and the blocked
        set. */
    method SetupUContext(p: Addr, sigs: U64, prior: UContext) returns (uc: UContext)
      requires RegsShape(fp) && Accessible(limit, p, RT_SIGFRAME_SIZE)
      modifies this`fp, this`fpstates
      ensures uc == RtUContext(old(regs), old(eflag), p, sigs, sasSp, sasSize)
      ensures fpstates == old(fpstates)[p + RT_FPSTATE_OFFSET := SaveImage(old(fp))]
      ensures fp == old(fp).(fsr := ClearedFsr(old(fp).fsr))
    {
      FrameCoversContext(limit, p);
      var ssFlags := SasSsFlags(ToAddr(regs.r12), sasSp, sasSize);
      var err, sc := SetupSigcontext(p + RT_FPSTATE_OFFSET, sigs, prior.mcontext);
      uc := UContext(0, 0, Lo32(ToWord(sasSp)), ssFlags, Lo32(ToWord(sasSize)), sc, sigs);
    }

    /** The frame setup_rt_frame_ia32 writes once the frame at `p` has
        passed `access_ok`: the signal number `signo`, pointers to its own
        siginfo and ucontext, the marshalled siginfo, the ucontext with the
        alternate stack, the saved context and the whole blocked set, and
        the trampoline. The eighth trampoline byte is not written. */
    method StoreRtFrame(p: Addr, signo: U32, ka: KSigaction, info: Siginfo, sigs: U64)
      requires RegsShape(fp) && NativeShape(info) && Accessible(limit, p, RT_SIGFRAME_SIZE)
      modifies this`fp, this`frames, this`fpstates
      ensures frames == old(frames)[p := RtFrame(signo, old(regs), old(eflag), p, sigs, ka.flags, ka.handler,
                                                 info, sasSp, sasSize, ReadRt(old(frames), p))]
      ensures fpstates == old(fpstates)[p + RT_FPSTATE_OFFSET := SaveImage(old(fp))]
      ensures fp == old(fp).(fsr := ClearedFsr(old(fp).fsr))
    {
      // The nested siginfo, sigcontext and FP-state checks pass inside the frame.
      FrameCoversContext(limit, p);
      var prior := ReadRt(frames, p);
      var copied := CopySiginfoToUser32(true, prior.info, info);
      var uc := SetupUContext(p, sigs, prior.uc);
      var f := Rt(Pretcode(ka.flags, ka.handler, IA32_GATE_OFFSET + 8), signo,
                  Lo32(ToWord(p + RT_INFO_OFFSET)), Lo32(ToWord(p + RT_UC_OFFSET)),
                  copied.value, uc, RtRetcode(prior.retcode[7]));
      frames := frames[p := f];
    }

    /** setup_rt_frame_ia32: build an rt frame for signal `sig` with the
        siginfo `info`, under the action `ka` with blocked set `sigs`, and
        point the registers at the handler. A frame that fails `access_ok`
        forces SIGSEGV instead and changes nothing else. */
    method SetupRtFrame(sig: U32, ka: KSigaction, info: Siginfo, invmap: Option<seq<U8>>, sigs: U64) returns (r: int)
      requires RegsShape(fp) && 1 <= sig <= 64 && (invmap.Some? ==> |invmap.value| == 32)
      requires NativeShape(info)
      modifies this`regs, this`segvForced, this`fp, this`frames, this`fpstates
      ensures var p := GetSigframe(ka.flags, Esp(old(regs.r12)), sasSp, sasSize, RT_SIGFRAME_SIZE);
        if !Accessible(limit, p, RT_SIGFRAME_SIZE) then
          && r == 0 && segvForced && regs == old(regs) && fp == old(fp)
          && frames == old(frames) && fpstates == old(fpstates)
        else
          && r == 1 && segvForced == old(segvForced)
          && frames == old(frames)[p := RtFrame(MapSig(sig, invmap), old(regs), old(eflag), p, sigs, ka.flags,
                                                ka.handler, info, sasSp, sasSize, ReadRt(old(frames), p))]
          && fpstates == old(fpstates)[p + RT_FPSTATE_OFFSET := SaveImage(old(fp))]
          && fp == old(fp).(fsr := ClearedFsr(old(fp).fsr))
          && regs == old(regs).(r12 := ToWord(p), crIip := SaHandler(ka.handler))
    {
      var p := GetSigframe(ka.flags, Esp(regs.r12), sasSp, sasSize, RT_SIGFRAME_SIZE);
      if !Accessible(limit, p, RT_SIGFRAME_SIZE) {
        segvForced := true;
        return 0;
      }
      StoreRtFrame(p, MapSig(sig, invmap), ka, info, sigs);
      EnterHandler(p, SaHandler(ka.handler));
      return 1;
    }

    /** ia32_setup_frame1: an action with SA_SIGINFO gets an rt frame,
        any other a plain frame. */
    method SetupFrame1(sig: U32, ka: KSigaction, info: Siginfo, invmap: Option<seq<U8>>, sigs: U64) returns (r: int)
      requires RegsShape(fp) && 1 <= sig <= 64 && (invmap.Some? ==> |invmap.value| == 32)
      requires NativeShape(info)
      modifies this`regs, this`segvForced, this`fp, this`frames, this`fpstates
      ensures ka.flags & SA_SIGINFO != 0 ==>
        var p := GetSigframe(ka.flags, Esp(old(regs.r12)), sasSp, sasSize, RT_SIGFRAME_SIZE);
        if !Accessible(limit, p, RT_SIGFRAME_SIZE) then
          && r == 0 && segvForced && regs == old(regs) && fp == old(fp)
          && frames == old(frames) && fpstates == old(fpstates)
        else
          && r == 1 && segvForced == old(segvForced)
          && frames == old(frames)[p := RtFrame(MapSig(sig, invmap), old(regs), old(eflag), p, sigs, ka.flags,
                                                ka.handler, info, sasSp, sasSize, ReadRt(old(frames), p))]
          && fpstates == old(fpstates)[p + RT_FPSTATE_OFFSET := SaveImage(old(fp))]
          && fp == old(fp).(fsr := ClearedFsr(old(fp).fsr))
          && regs == old(regs).(r12 := ToWord(p), crIip := SaHandler(ka.handler))
      ensures ka.flags & SA_SIGINFO == 0 ==>
        var p := GetSigframe(ka.flags, Esp(old(regs.r12)), sasSp, sasSize, SIGFRAME_SIZE);
        if !Accessible(limit, p, SIGFRAME_SIZE) then
          && r == 0 && segvForced && regs == old(regs) && fp == old(fp)
          && frames == old(frames) && fpstates == old(fpstates)
        else
          && r == 1 && segvForced == old(segvForced)
          && frames == old(frames)[p := PlainFrame(MapSig(sig, invmap), old(regs), old(eflag), p, sigs, ka.flags, ka.handler)]
          && fpstates == old(fpstates)[p + FPSTATE_OFFSET := SaveImage(old(fp))]
          && fp == old(fp).(fsr := ClearedFsr(old(fp).fsr))
          && regs == old(regs).(r12 := ToWord(p), crIip := SaHandler(ka.handler))
    {
      if ka.flags & SA_SIGINFO != 0 {
        r := SetupRtFrame(sig, ka, info, invmap, sigs);
      } else {
        r := SetupFrame(sig, ka, invmap, sigs);
      }
    }

    /** sys32_sigreturn: the plain frame is found 8 bytes below the ia32
        stack pointer. The blocked set is restored from `sc.oldmask` and
        `extramask`, less SIGKILL and SIGSTOP, then the saved context; the
        result is the saved eax, sign-extended. A frame that fails
        `access_ok`, or a saved FP state that cannot be read, forces SIGSEGV
        and gives 0; in the second case the mask and registers are already
        restored. */
    method Sigreturn() returns (r: U64)
      requires RegsShape(fp)
      modifies this`regs, this`eflag, this`fp, this`blocked, this`noRestart, this`segvForced
      ensures var p := SigreturnFrame(old(regs.r12));
        if !Accessible(limit, p, SIGFRAME_SIZE) then
          && r == 0 && segvForced && regs == old(regs) && eflag == old(eflag) && fp == old(fp)
          && blocked == old(blocked) && noRestart == old(noRestart)
        else
          var sc := ReadPlain(old(frames), p).sc;
          && blocked == Sanitise(JoinMask(sc.oldmask, ReadPlain(old(frames), p).extramask))
          && noRestart && regs == RestoreRegs(old(regs), sc) && eflag == MergeEflag(old(eflag), sc.eflags)
          && fp == RestoredFp(limit, old(fpstates), sc.fpstate, old(fp))
          && (if FpRestoreFaults(limit, sc.fpstate) then r == 0 && segvForced
              else r == Sext32(sc.eax) && segvForced == old(segvForced))
    {
      var p := SigreturnFrame(regs.r12);
      if !Accessible(limit, p, SIGFRAME_SIZE) {
        segvForced := true;
        return 0;
      }
      var f := ReadPlain(frames, p);
      blocked := Sanitise(JoinMask(f.sc.oldmask, f.extramask));
      var err, eax := RestoreSigcontext(f.sc);
      if err != 0 {
        segvForced := true;
        return 0;
      }
      return Sext32(eax);
    }

    /** sys32_rt_sigreturn: the rt frame is found 4 bytes below the ia32
        stack pointer. The blocked set is restored from `uc_sigmask`, less
        SIGKILL and SIGSTOP, then the saved context `uc_mcontext`; the
        result is the saved eax, sign-extended. Failures are those of
        sys32_sigreturn. */
    method RtSigreturn() returns (r: U64)
      requires RegsShape(fp)
      modifies this`regs, this`eflag, this`fp, this`blocked, this`noRestart, this`segvForced
      ensures var p := RtSigreturnFrame(old(regs.r12));
        if !Accessible(limit, p, RT_SIGFRAME_SIZE) then
          && r == 0 && segvForced && regs == old(regs) && eflag == old(eflag) && fp == old(fp)
          && blocked == old(blocked) && noRestart == old(noRestart)
        else
          var uc := ReadRt(old(frames), p).uc;
          && blocked == Sanitise(uc.sigmask)
          && noRestart && regs == RestoreRegs(old(regs), uc.mcontext)
          && eflag == MergeEflag(old(eflag), uc.mcontext.eflags)
          && fp == RestoredFp(limit, old(fpstates), uc.mcontext.fpstate, old(fp))
          && (if FpRestoreFaults(limit, uc.mcontext.fpstate) then r == 0 && segvForced
              else r == Sext32(uc.mcontext.eax) && segvForced == old(segvForced))
    {
      var p := RtSigreturnFrame(regs.r12);
      if !Accessible(limit, p, RT_SIGFRAME_SIZE) {
        segvForced := true;
        return 0;
      }
      var f := ReadRt(frames, p);
      blocked := Sanitise(f.uc.sigmask);
      var err, eax := RestoreSigcontext(f.uc.mcontext);
      if err != 0 {
        segvForced := true;
        return 0;
      }
      return Sext32(eax);
    }

    /** sys32_sigsuspend: the blocked set is saved, replaced by `mask` less
        SIGKILL and SIGSTOP, and the saved set is to be restored on the way
        out; the call always reports -ERESTARTNOHAND. */
    method Sigsuspend(mask: U64) returns (r: int)
      modifies this`blocked, this`savedSigmask, this`restoreSigmask
      ensures savedSigmask == old(blocked) && blocked == Sanitise(mask) && restoreSigmask
      ensures r == -ERESTARTNOHAND
    {
      var m := Sanitise(mask);
      savedSigmask, blocked, restoreSigmask := blocked, m, true;
      return -ERESTARTNOHAND;
    }
  }
}
