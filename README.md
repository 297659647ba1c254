# IA-32 signal delivery on IA-64, and the S3C HSMMC platform data

This project models, in Dafny, two pieces of a Linux 2.6 kernel tree.

**The ia32 signal layer of IA-64** is `arch/ia64/ia32/ia32_signal.c`. It is the code that delivers a signal to a 32-bit x86 process running on an Itanium, and returns from one. The model covers:

- the marshalling of `siginfo_t` to and from the 32-bit `compat_siginfo_t` (module `SigInfo`);
- the legacy x87/SSE FP-state image and the IA-64 control and FP registers it is made from (module `FpCodec`);
- the translation between `pt_regs` and the ia32 `sigcontext` (module `RegisterView`);
- signal sets, `_BLOCKABLE` and byte-counted copies (module `SigMask`);
- `sigact_set_handler` and the argument checks of `sys32_rt_sigaction` and `sys32_rt_sigprocmask` (module `SigAction`);
- frame placement by `get_sigframe`, the contents of the plain and rt frames, and where the return path looks for them (module `Frames`);
- the task whose registers, FP state, masks and user memory are updated in place (class `Ia32Task.Task`). Its methods are the save and restore of the FP state, setup and restore of a sigcontext, frame setup for both frame kinds, `ia32_setup_frame1`, both sigreturns and `sys32_sigsuspend`.

Integers narrower than 64 bits are 64-bit bit-vectors with their upper bits zero (module `Bits`). User addresses are integers below 2^64, with `unsigned long` wrap-around written out (`Wrap`). User memory is a map from addresses to the records written there: signal frames, and FP-state images. Memory no record was written to reads as zeros, and `access_ok` is abstracted as a range check: the whole access must lie below the task's user limit. The ia64 check itself tests only the start address and leaves the rest to the guard page above user space. The 80-bit contents of x87 registers are opaque bit patterns.

**The first S3C high-speed MMC controller** (`arch/arm/plat-s3c/dev-hsmmc.c`, module `Hsmmc`). The model has:

- the default platform-data record;
- `s3c_sdhci0_set_platdata`, which merges a board's record into that default in place (class `Hsmmc.SdhciPlatdata`);
- the card-detect test of `detect_sdhci0_irq_cd`, as a function of the GPN data-register value.

Where the code and its design documentation disagree, the model follows the code. There are five such places:

- **CHLD siginfo.** A child-status siginfo does not round-trip its status and times. The to-user copy narrows `si_code` to 16 bits, which erases the class, so the from-user copy takes the default branch (`SigInfo.ChldLosesStatusOnRoundTrip`).
- **Pad copy.** A siginfo with a negative `si_code` does not round-trip its whole opaque payload. Both copies pass `SI_PAD_SIZE`, a count of ints, as a byte count, so only 28 bytes cross: the first 7 of the 28 native words. The other words keep the destination's values (`SigInfo.PadRoundTrip`).
- **Registers after a round trip.** A round trip through a sigcontext does not give back the whole register snapshot. The general registers and `cr_iip` come back truncated to 32 bits, `r17` gets privilege level 3 forced into both selectors, and `r8` is not restored from the context (`RegisterView.GeneralRoundTrip`, `RegisterView.CodeStackRoundTrip`).
- **Alternate-stack overflow.** The overflow test only applies when the task is already on the alternate stack. It looks at the address before alignment, so an aligned frame can start up to 15 bytes below the stack (`Frames.AlignmentCanLeaveAltStack`).
- **`ar.fcr` after a round trip.** The SSE control bits do not round-trip. The save takes MXCSR bits 7..15 from `ar.fcr` (mask `0xff80`), and the restore writes back bits 4 and 8..15 (mask `0xff10`) (`FpCodec.FcrRoundTrip`).

Every method that changes the task is specified by functions on the old state (`SaveImage`, `RestoreImage`, `SaveSigContext`, `RestoreRegs`, `PlainFrame`, `RtFrame`, `GetSigframe`, `Sanitise`). The properties the source promises are lemmas about those functions: round trips, bits kept outside masks, the slot permutation, alignment bounds and mask sanitising.

## Model

| member | source | states |
|---|---|---|
| Bits.Sext32 | arch/ia64/ia32/ia32_signal.c:449 | `(long)(int) x` keeps the low word and fills the high word with the sign bit |
| Bits.Sext16 | arch/ia64/ia32/ia32_signal.c:128 | `(short) si_code` keeps the low 16 bits and fills bits 16..31 with bit 15 |
| SigMask.Sanitise | arch/ia64/ia32/ia32_signal.c:39 | SIGKILL and SIGSTOP are absent from the result and every other signal is as in the input |
| SigMask.SanitiseIdempotent | arch/ia64/ia32/ia32_signal.c:963 | sanitising a sanitised set changes nothing |
| SigMask.JoinMask | arch/ia64/ia32/ia32_signal.c:958-960 | the set read back from `oldmask` and `extramask` has exactly those words as its low and high halves |
| SigMask.OldMask | arch/ia64/ia32/ia32_signal.c:648 | no contract of its own: the first mask word stored in `oldmask`, the low 32 bits of the set; `SigMask.JoinSplitMask` proves it and `ExtraMask` rebuild the set |
| SigMask.ExtraMask | arch/ia64/ia32/ia32_signal.c:809-811 | no contract of its own: the second mask word stored in `extramask`, the high 32 bits of the set; partner `SigMask.JoinSplitMask` |
| SigMask.JoinSplitMask | arch/ia64/ia32/ia32_signal.c:807-811 | splitting a set into `oldmask` and `extramask` and joining them gives the set back |
| SigMask.Merge | arch/ia64/ia32/ia32_signal.c:532-533 | the bits under the mask come from the source and all other bits from the destination |
| SigMask.CopyBytes | arch/ia64/ia32/ia32_signal.c:531-533 | no contract of its own: the first `n` bytes of the destination set replaced by those of the source, little-endian, as `copy_from_user`/`copy_to_user` of `n` bytes do; `SigMask.CopyNoBytes` and `SigMask.CopyAllBytes` give its two ends and `SigMask.Merge` its bitwise meaning |
| SigMask.CopyNoBytes | arch/ia64/ia32/ia32_signal.c:533 | a copy of zero bytes leaves the destination set unchanged |
| SigMask.CopyAllBytes | arch/ia64/ia32/ia32_signal.c:544 | a copy of all eight bytes copies the whole set |
| SigAction.WrappedTestIsSpecial | arch/ia64/ia32/ia32_signal.c:447 | the unsigned test `handler + 1 <= 2` holds exactly for SIG_DFL, SIG_IGN and SIG_ERR |
| SigAction.SetHandler | arch/ia64/ia32/ia32_signal.c:445-452 | a special handler is sign-extended; any other has the restorer in the high word; the low word is always the handler |
| SigAction.HandlerRoundTrip | arch/ia64/ia32/ia32_signal.c:445-452 | IA32_SA_HANDLER gives back the handler that was set; IA32_SA_RESTORER gives back the restorer for an ordinary handler, -1 for SIG_ERR and 0 for SIG_DFL and SIG_IGN |
| SigAction.RtSigaction | arch/ia64/ia32/ia32_signal.c:486-517 | a wrong sigsetsize gives -EINVAL and an unreadable `act` -EFAULT, both before do_sigaction; otherwise do_sigaction gets the new action (handler and restorer packed, flags and mask copied) or none when `act` is NULL; `oact` is written exactly when do_sigaction succeeds and `oact` is writable, with the old action unpacked; the result is do_sigaction's error, or `OACT_FAULT` (the OR of the failed stores, -6) for an unwritable `oact`, or 0 |
| SigAction.OactFaultValue | arch/ia64/ia32/ia32_signal.c:511-514 | OR-ing the failed stores to an unwritable `oact` (-EFAULT three times and 8 uncopied mask bytes) as a 32-bit int gives -6, which differs from -EFAULT |
| SigAction.RtSigprocmask | arch/ia64/ia32/ia32_signal.c:521-548 | a sigsetsize above 8 gives -EINVAL, and an unreadable `set` gives -EFAULT before sys_rt_sigprocmask unless sigsetsize is 0; the set passed on is the first sigsetsize bytes of the user's set over zeros (all zeros for an unreadable `set` with sigsetsize 0), or none for a NULL `set`; `oset` receives the first sigsetsize bytes of the old set exactly when the call succeeds and `oset` is writable; the result is sys_rt_sigprocmask's error, or -EFAULT for an unwritable `oset` when sigsetsize is not 0, or 0 |
| SigAction.FullSizeProcmask | arch/ia64/ia32/ia32_signal.c:528-547 | with sigsetsize 8 the user's set is passed on whole and the whole old set is returned |
| SigAction.ZeroSizeProcmask | arch/ia64/ia32/ia32_signal.c:531-546 | with sigsetsize 0 any non-NULL `set`, readable or not, installs the empty set request, `oset` keeps its contents, and the result is sys_rt_sigprocmask's even for an unwritable `oset` |
| RegisterView.PackR16 | arch/ia64/ia32/ia32_signal.c:668-695 | each of gs, fs, es, ds can be read back from its own 16-bit lane of the rebuilt `r16` |
| RegisterView.PackR16OfFields | arch/ia64/ia32/ia32_signal.c:608-611 | any `r16` is the packing of its four selector lanes |
| RegisterView.PackR17 | arch/ia64/ia32/ia32_signal.c:681-686 | the rebuilt `r17` holds cs and ss with privilege level 3 forced into both, and nothing above bit 31 |
| RegisterView.MergeEflag | arch/ia64/ia32/ia32_signal.c:716-720 | the bits of `ar.eflag` under 0x40DD5 come from the saved eflags and every other bit keeps its live value |
| RegisterView.SaveSigContextFields | arch/ia64/ia32/ia32_signal.c:608-648 | the saved context holds selectors that pack back into `r16`, the 32-bit stack pointer (twice), eax, eip, the low half of `ar.eflag`, the FP-state pointer and the first mask word |
| RegisterView.SaveSigContext | arch/ia64/ia32/ia32_signal.c:608-648 | no contract of its own: the `sigcontext_ia32` setup_sigcontext_ia32 stores, specified field by field in `RegisterView.SaveSigContextFields` |
| RegisterView.RestoreRegsFields | arch/ia64/ia32/ia32_signal.c:688-722 | after a restore, every selector is in its own lane of `r16`, cs and ss are in `r17` with privilege level 3, the general registers and eip come from the context, `r8` is untouched and `r1` is -1 |
| RegisterView.RestoreRegs | arch/ia64/ia32/ia32_signal.c:688-722 | no contract of its own: the registers restore_sigcontext_ia32 rebuilds from a context, specified in `RegisterView.RestoreRegsFields` and inverted by `RegisterView.SelectorsRoundTrip` and `RegisterView.GeneralRoundTrip` |
| RegisterView.SelectorsRoundTrip | arch/ia64/ia32/ia32_signal.c:608-611 | saving then restoring a context gives back `r16` bit for bit |
| RegisterView.CodeStackRoundTrip | arch/ia64/ia32/ia32_signal.c:625 | saving then restoring a context gives back the low half of `r17`, with 0x00030003 set, and clears its high half |
| RegisterView.GeneralRoundTrip | arch/ia64/ia32/ia32_signal.c:612-624 | saving then restoring a context gives back r9..r15 and `cr_iip` truncated to 32 bits; `r8` is that of the restoring task and `r1` is -1 |
| RegisterView.MergeAllOnes | arch/ia64/ia32/ia32_signal.c:718-719 | restoring all-ones saved flags sets exactly the permitted bits of the live `ar.eflag` |
| FpCodec.ClearedFsrBits | arch/ia64/ia32/ia32_signal.c:230-231 | the live status register loses exactly bits 0..7 and 15 |
| FpCodec.ClearKeepsTos | arch/ia64/ia32/ia32_signal.c:230 | clearing the exception state does not move the top of stack |
| FpCodec.Tos | arch/ia64/ia32/ia32_signal.c:255 | no contract of its own beyond the range of a slot number: the top-of-stack field, bits 11..13 of the status word; used by `FpCodec.SaveStackPlaces`, `FpCodec.LoadStackPlaces` and `FpCodec.StackRoundTrip` |
| FpCodec.RotationsModEight | arch/ia64/ia32/ia32_signal.c:256-260 | the slot of register f(8+i) is `(i + ((8 - tos) & 7)) & 7`, and the register of slot j is `(j + tos) mod 8` |
| FpCodec.SlotIsPermutation | arch/ia64/ia32/ia32_signal.c:255-275 | the top-of-stack rotation is a bijection on the eight slots |
| FpCodec.SaveStack | arch/ia64/ia32/ia32_signal.c:255-275 | eight slots: slot `(i + fr8_st_map) & 7` holds register f(8+i) (`FpCodec.SaveStackPlaces`); inverted by `LoadStack` (`FpCodec.LoadSaveStack`) |
| FpCodec.LoadStack | arch/ia64/ia32/ia32_signal.c:387-408 | eight registers: f(8+i) is read from slot `(i + fr8_st_map) & 7` (`FpCodec.LoadStackPlaces`); inverted by `SaveStack` (`FpCodec.SaveLoadStack`) |
| FpCodec.SaveStackPlaces | arch/ia64/ia32/ia32_signal.c:257-275 | a save puts register f(8+i) into slot `(i + 8 - tos) mod 8` |
| FpCodec.LoadStackPlaces | arch/ia64/ia32/ia32_signal.c:387-408 | a restore puts slot j into register f(8 + ((j + tos) mod 8)) |
| FpCodec.LoadSaveStack | arch/ia64/ia32/ia32_signal.c:255-275 | loading with the same top of stack undoes saving |
| FpCodec.SaveLoadStack | arch/ia64/ia32/ia32_signal.c:387-408 | saving with the same top of stack undoes loading |
| FpCodec.PackXmm | arch/ia64/ia32/ia32_signal.c:277-307 | eight xmm records, record k made of f(16+2k) and f(17+2k); inverted by `UnpackXmm` (`FpCodec.UnpackPackXmm`) |
| FpCodec.UnpackXmm | arch/ia64/ia32/ia32_signal.c:410-440 | sixteen halves, f(16+2k) and f(17+2k) taken from record k; inverted by `PackXmm` (`FpCodec.PackUnpackXmm`) |
| FpCodec.UnpackPackXmm | arch/ia64/ia32/ia32_signal.c:277-307 | loading `_xmm` after storing it gives back f16..f31 |
| FpCodec.PackUnpackXmm | arch/ia64/ia32/ia32_signal.c:410-440 | storing f16..f31 after loading them gives back every `_xmm[k]` |
| FpCodec.SavedMxcsrBits | arch/ia64/ia32/ia32_signal.c:242-243 | the saved MXCSR fits in 16 bits; bit 6 is zero; bits 7..15 are `ar.fcr` bits 39..47; bits 0..5 are `ar.fsr` bits 32..37 |
| FpCodec.SavedMxcsr | arch/ia64/ia32/ia32_signal.c:242-243 | no contract of its own: `((fcr >> 32) & 0xff80) \| ((fsr >> 32) & 0x3f)`; `FpCodec.SavedMxcsrBits` states which bits of fcr and fsr it carries |
| FpCodec.ImageFrom | arch/ia64/ia32/ia32_signal.c:233-307 | no contract of its own: the `_fpstate_ia32` image made from the four FP control registers, the stack slots and the xmm records; `FpCodec.SaveImageFields` states each field |
| FpCodec.SaveImage | arch/ia64/ia32/ia32_signal.c:233-307 | the image has its eight `_st` slots and eight `_xmm` registers |
| FpCodec.SaveImageFields | arch/ia64/ia32/ia32_signal.c:233-307 | the image records the status word twice with its top of stack, and is marked with X86_FXSR_MAGIC (0), that is, as an image that carries the SSE part; it holds every stack register in its rotated slot and f16..f31 in `_xmm` |
| FpCodec.RestoreFcrBits | arch/ia64/ia32/ia32_signal.c:341-346 | outside 0xff1000001f3f the restored `ar.fcr` keeps its live bits; its control-word bits come from `cw`, and bits 36 and 40..47 from `mxcsr & 0xff10` |
| FpCodec.RestoreFcr | arch/ia64/ia32/ia32_signal.c:341-346 | no contract of its own: fcr with bits 0-5 and 8-12 from `cw` and bits 36 and 40-47 from `mxcsr`; `FpCodec.RestoreFcrBits` and `FpCodec.FcrRoundTrip` |
| FpCodec.RestoreFsrBits | arch/ia64/ia32/ia32_signal.c:348-357 | bits 38 and up of `ar.fsr` stay live; bits 0..15 come from `sw`, with 0x8080 cleared exactly when `sw & 0x7f` is zero; 16..31 come from `tag` and 32..37 from `mxcsr` |
| FpCodec.CorrectSw | arch/ia64/ia32/ia32_signal.c:350-352 | no contract of its own: a status word with no exception flag set has bits 7 and 15 cleared; `FpCodec.FsrRoundTripFault` and `FpCodec.FsrRoundTripQuiet` state both cases |
| FpCodec.RestoreFsr | arch/ia64/ia32/ia32_signal.c:348-357 | no contract of its own: fsr with bits 0-15 from the corrected `sw`, 16-31 from `tag` and 32-37 from `mxcsr`; `FpCodec.RestoreFsrBits` |
| FpCodec.RestoreAddrBits | arch/ia64/ia32/ia32_signal.c:359-371 | in `ar.fir` and `ar.fdr`, bits 48 and up stay live, 0..31 come from the offset and 32..47 from the selector |
| FpCodec.RestoreAddr | arch/ia64/ia32/ia32_signal.c:359-371 | no contract of its own: fir or fdr with the offset in bits 0-31 and the selector in bits 32-47; `FpCodec.RestoreAddrBits` and `FpCodec.AddrRoundTrip` |
| FpCodec.RestoreImage | arch/ia64/ia32/ia32_signal.c:336-440 | the restored state has eight stack and sixteen XMM-half registers |
| FpCodec.RestoreImageFields | arch/ia64/ia32/ia32_signal.c:385-440 | the restored top of stack is the image's (from `sw`); every slot lands in its rotated register and `_xmm` comes back whole |
| FpCodec.StackRoundTrip | arch/ia64/ia32/ia32_signal.c:255-275 | save then restore returns every x87 register to itself, whatever the live state in between |
| FpCodec.HalvesRoundTrip | arch/ia64/ia32/ia32_signal.c:277-307 | save then restore gives back f16..f31 |
| FpCodec.AddrRoundTrip | arch/ia64/ia32/ia32_signal.c:236-239 | save then restore gives back bits 0..47 of `ar.fir` and `ar.fdr`; their upper bits stay live |
| FpCodec.FsrRoundTripFault | arch/ia64/ia32/ia32_signal.c:348-357 | with an exception flag set, save then restore gives back `ar.fsr` bit for bit |
| FpCodec.FsrRoundTripQuiet | arch/ia64/ia32/ia32_signal.c:350-352 | with no exception flag set, save then restore gives back `ar.fsr` with bits 7 and 15 cleared |
| FpCodec.FcrRoundTrip | arch/ia64/ia32/ia32_signal.c:344-346 | save then restore gives back `ar.fcr` except bit 36, which takes `ar.fsr` bit 36; bit 39 is not restored from the image |
| SigInfo.KindOf | arch/ia64/ia32/ia32_signal.c:129-132 | a code selects the pad exactly when it is negative; the default branch is taken only for the classes without a case |
| SigInfo.SignWordIsUpperHalf | arch/ia64/ia32/ia32_signal.c:84-85 | the word a signed member is widened with is the upper half of its sign extension |
| SigInfo.ToUserWord | arch/ia64/ia32/ia32_signal.c:126-162 | no contract of its own: the compat word copy_siginfo_to_user32 stores at a union word index for the siginfo's class, or none; `SigInfo.ToUserFieldsWords` and `SigInfo.ToUserTouchesOnlyMembers` |
| SigInfo.FromUserWord | arch/ia64/ia32/ia32_signal.c:79-105 | no contract of its own: the native word copy_siginfo_from_user32 reads into a union word index, or none; `SigInfo.FromUserFields` states it word by word |
| SigInfo.ToUserFields | arch/ia64/ia32/ia32_signal.c:129-162 | the compat union keeps its 29 words |
| SigInfo.ToUserFieldsWords | arch/ia64/ia32/ia32_signal.c:129-162 | each compat union word is the member value the class names, or its old value if the class names none |
| SigInfo.CopySiginfoToUser32 | arch/ia64/ia32/ia32_signal.c:111-165 | fails with EFAULT exactly when the record is not writable; otherwise gives a complete compat record |
| SigInfo.CopySiginfoToUser32Contents | arch/ia64/ia32/ia32_signal.c:126-162 | signo and errno are copied, si_code is narrowed to a `short`, and exactly the union words of the class are written |
| SigInfo.PadFromUser | arch/ia64/ia32/ia32_signal.c:79-80 | a negative code reads the first seven pad words and leaves the rest |
| SigInfo.ChldFromUser | arch/ia64/ia32/ia32_signal.c:83-89 | a CHLD record reads status, sign-extended times, pid and uid, and nothing else |
| SigInfo.FaultFromUser | arch/ia64/ia32/ia32_signal.c:91-93 | a FAULT record reads si_addr zero-extended and nothing else |
| SigInfo.PollFromUser | arch/ia64/ia32/ia32_signal.c:95-97 | a POLL record reads si_band sign-extended and si_fd, and nothing else |
| SigInfo.FromUserFields | arch/ia64/ia32/ia32_signal.c:79-105 | each native union word is the member value the class names, or its old value |
| SigInfo.CopySiginfoFromUser32 | arch/ia64/ia32/ia32_signal.c:67-108 | fails with EFAULT exactly when the record is not readable; otherwise copies the header words unchanged and exactly the union words of the class |
| SigInfo.NarrowedCodeHasNoClass | arch/ia64/ia32/ia32_signal.c:128 | narrowing a non-negative code to a `short` leaves class 0 or a negative code |
| SigInfo.KillRoundTrip | arch/ia64/ia32/ia32_signal.c:126-140 | a class-0 siginfo whose code fits a `short` comes back with its header, pid and uid, and the other words untouched |
| SigInfo.ShortNegativeCodeKept | arch/ia64/ia32/ia32_signal.c:128 | a negative code that fits a `short` is unchanged by the narrowing |
| SigInfo.PadRoundTrip | arch/ia64/ia32/ia32_signal.c:129-130 | a negative code that fits a `short` comes back with its header and seven pad words, and the rest of the record untouched |
| SigInfo.ChldLosesStatusOnRoundTrip | arch/ia64/ia32/ia32_signal.c:128-139 | a CHLD siginfo comes back as class 0: its pid and uid return, but its status and times do not, and its code is cut to 16 bits |
| SigInfo.TimerOnlyToUser | arch/ia64/ia32/ia32_signal.c:149-153 | TIMER writes si_tid, si_overrun and si_ptr to user memory, but a TIMER record is read from user memory like a class-0 record |
| SigInfo.ToUserTouchesOnlyMembers | arch/ia64/ia32/ia32_signal.c:129-162 | the copy to user memory never writes a union word beyond the members of its class or the seven pad words |
| Frames.FrameCoversContext | arch/ia64/ia32/ia32_signal.c:801-807 | a frame that passes `access_ok` contains its sigcontext and FP state, which then pass their own checks, and its member addresses do not wrap |
| Frames.SasSsFlags | arch/ia64/ia32/ia32_signal.c:767 | no contract of its own: `sas_ss_flags`, SS_DISABLE without an alternate stack, SS_ONSTACK on it, 0 otherwise; used in `Frames.StackBaseCases` |
| Frames.StackBaseCases | arch/ia64/ia32/ia32_signal.c:765-782 | the base is the 32-bit stack pointer, or the alternate stack's top when SA_ONSTACK is set and the task is off it; on the alternate stack, the result is failure when the frame would leave the stack |
| Frames.StackBase | arch/ia64/ia32/ia32_signal.c:765-782 | no contract of its own: the stack top get_sigframe works down from, or none when it gives up; `Frames.StackBaseCases` states its three cases |
| Frames.AlignProps | arch/ia64/ia32/ia32_signal.c:786-788 | the aligned pointer satisfies `(p + 4) % 16 == 0` and lies `(esp + 4) % 16` bytes below the input |
| Frames.Align | arch/ia64/ia32/ia32_signal.c:786-788 | no contract of its own: `((esp + 4) & -16) - 4` with wrap-around; `Frames.AlignProps` |
| Frames.GetSigframeProps | arch/ia64/ia32/ia32_signal.c:760-790 | the result is -1 exactly when the base fails; otherwise it is ABI-aligned and at most 15 bytes below base minus size |
| Frames.GetSigframe | arch/ia64/ia32/ia32_signal.c:760-790 | no contract of its own: the frame address get_sigframe returns, -1 when the alternate stack would overflow; `Frames.GetSigframeProps` |
| Frames.FreshAltStackFrameFits | arch/ia64/ia32/ia32_signal.c:771-772 | a frame placed on a fresh alternate stack with room for it lies wholly inside that stack |
| Frames.AlignmentCanLeaveAltStack | arch/ia64/ia32/ia32_signal.c:779-788 | the overflow test looks before alignment, so a frame can start 4 bytes below the alternate stack |
| Frames.MapSig | arch/ia64/ia32/ia32_signal.c:804-805 | no contract of its own: the signal number stored in the frame, translated through the exec domain's inverse map below 32 |
| Frames.Pretcode | arch/ia64/ia32/ia32_signal.c:814-821 | no contract of its own: the return address stored in `pretcode`, the action's restorer with SA_RESTORER and the gate trampoline otherwise |
| Frames.PlainRetcode | arch/ia64/ia32/ia32_signal.c:828-830 | the plain trampoline is eight bytes |
| Frames.PlainRetcodeBytes | arch/ia64/ia32/ia32_signal.c:828-830 | the plain trampoline is `popl %eax; movl $119, %eax; int $0x80` |
| Frames.RtRetcode | arch/ia64/ia32/ia32_signal.c:906-908 | the rt trampoline is eight bytes |
| Frames.RtRetcodeBytes | arch/ia64/ia32/ia32_signal.c:906-908 | the rt trampoline is `movl $173, %eax; int $0x80`, and its eighth byte is left as it was |
| Frames.ReadPlain | arch/ia64/ia32/ia32_signal.c:958-960 | what sigreturn reads is a plain frame with an eight-byte trampoline |
| Frames.ReadRt | arch/ia64/ia32/ia32_signal.c:989 | what rt_sigreturn reads is an rt frame with a complete siginfo |
| Frames.PlainFrameFields | arch/ia64/ia32/ia32_signal.c:804-830 | the plain frame holds the mapped signal, the trampoline and its return address, and the context pointing at the frame's own FP state; `oldmask` and `extramask` join back into the blocked set |
| Frames.PlainFrame | arch/ia64/ia32/ia32_signal.c:804-830 | no contract of its own: the `sigframe_ia32` setup_frame_ia32 stores; `Frames.PlainFrameFields` states it field by field |
| Frames.RtFrameFields | arch/ia64/ia32/ia32_signal.c:871-908 | the rt frame holds the mapped signal, the return address and trampoline, pointers to its own siginfo and ucontext, and the marshalled siginfo; its ucontext holds the alt-stack description, the context pointing at the frame's own FP state and the whole blocked set |
| Frames.RtUContext | arch/ia64/ia32/ia32_signal.c:881-887 | no contract of its own: the `ucontext_ia32` setup_rt_frame_ia32 stores; `Frames.RtFrameFields` states its fields |
| Frames.RtFrame | arch/ia64/ia32/ia32_signal.c:871-908 | no contract of its own: the `rt_sigframe_ia32` setup_rt_frame_ia32 stores; `Frames.RtFrameFields` states it field by field |
| Frames.PlainFrameLookup | arch/ia64/ia32/ia32_signal.c:950-951 | after the trampoline pops the return address and signal number, sigreturn finds the frame at esp - 8 |
| Frames.RtFrameLookup | arch/ia64/ia32/ia32_signal.c:982-983 | after the trampoline pops the return address, rt_sigreturn finds the frame at esp - 4 |
| Frames.PlainDeliveryReturn | arch/ia64/ia32/ia32_signal.c:958-969 | sigreturn through a stored plain frame installs the delivery-time blocked set minus SIGKILL/SIGSTOP, and gives back `r16`, the 32-bit esp and eip |
| Frames.RtDeliveryReturn | arch/ia64/ia32/ia32_signal.c:989-998 | rt_sigreturn through a stored rt frame installs the whole delivery-time blocked set minus SIGKILL/SIGSTOP, and gives back `r16`, the 32-bit esp and eip |
| Ia32Task.FpstateAt | arch/ia64/ia32/ia32_signal.c:386-440 | the image read has its fixed-size arrays and is the stored one when there is one |
| Ia32Task.RestoredFp | arch/ia64/ia32/ia32_signal.c:725-733 | no contract of its own: the FP registers after restore_sigcontext_ia32: unchanged for a NULL `fpstate` pointer or one that fails its check, else the image restored by `FpCodec.RestoreImage`; the ensures of `Ia32Task.Task.RestoreSigcontext` uses it |
| Ia32Task.CopyOutStack | arch/ia64/ia32/ia32_signal.c:255-275 | the unrolled store loop yields the rotated `_st` array |
| Ia32Task.CopyOutXmm | arch/ia64/ia32/ia32_signal.c:277-307 | the unrolled store loop yields `_xmm[k]` = (f(16+2k), f(17+2k)) |
| Ia32Task.CopyInStack | arch/ia64/ia32/ia32_signal.c:387-408 | the unrolled load loop yields f8..f15 read from their rotated slots |
| Ia32Task.CopyInXmm | arch/ia64/ia32/ia32_signal.c:410-440 | the unrolled load loop yields f16..f31 from `_xmm` |
| Ia32Task.Task.SaveFpstateLive | arch/ia64/ia32/ia32_signal.c:204-309 | an inaccessible image gives -EFAULT and changes nothing; otherwise the image of the old FP state is stored, the live `ar.fsr` is cleared, and the result is 0 |
| Ia32Task.Task.RestoreFpstateLive | arch/ia64/ia32/ia32_signal.c:312-442 | an inaccessible image gives -EFAULT and changes nothing; otherwise the FP state becomes the masked merge of the image into the live state |
| Ia32Task.Task.SetupSigcontext | arch/ia64/ia32/ia32_signal.c:599-653 | the context records the old registers and eflag and the first mask word; with a writable FP area it points there, the FP state is saved and the result is 0; otherwise it is -EFAULT and the `fpstate` word keeps its old value |
| Ia32Task.Task.RestoreRegisters | arch/ia64/ia32/ia32_signal.c:661-723 | restart is cancelled; the registers and permitted eflag bits come from the context |
| Ia32Task.Task.RestoreNamedFpstate | arch/ia64/ia32/ia32_signal.c:725-733 | the FP state is restored when the context names one that is readable; the result is non-zero exactly when the one named is not |
| Ia32Task.Task.RestoreSigcontext | arch/ia64/ia32/ia32_signal.c:656-754 | registers, eflag and FP state are restored as above, the saved eax is returned, and the error is non-zero exactly when the named FP state cannot be read |
| Ia32Task.Task.StorePlainFrame | arch/ia64/ia32/ia32_signal.c:804-830 | memory at the frame holds PlainFrame of the old state, the FP image is stored at its offset, and the live `ar.fsr` is cleared |
| Ia32Task.Task.EnterHandler | arch/ia64/ia32/ia32_signal.c:836-837 | only `r12` (the frame) and `cr_iip` (the handler) change |
| Ia32Task.Task.SetupFrame | arch/ia64/ia32/ia32_signal.c:793-855 | an inaccessible frame forces SIGSEGV, returns 0 and changes nothing else; otherwise it stores the plain frame and FP image, enters the handler on the frame and returns 1 |
| Ia32Task.Task.SetupUContext | arch/ia64/ia32/ia32_signal.c:881-887 | the ucontext is RtUContext of the old state; the FP image is stored inside the frame and the live `ar.fsr` cleared |
| Ia32Task.Task.StoreRtFrame | arch/ia64/ia32/ia32_signal.c:871-908 | memory at the frame holds RtFrame of the old state and old memory, the FP image is stored at its offset, and the live `ar.fsr` is cleared |
| Ia32Task.Task.SetupRtFrame | arch/ia64/ia32/ia32_signal.c:858-933 | an inaccessible frame forces SIGSEGV, returns 0 and changes nothing else; otherwise it stores the rt frame and FP image, enters the handler on the frame and returns 1 |
| Ia32Task.Task.SetupFrame1 | arch/ia64/ia32/ia32_signal.c:936-944 | SA_SIGINFO selects the rt frame and its outcome, any other action the plain frame and its outcome |
| Ia32Task.Task.Sigreturn | arch/ia64/ia32/ia32_signal.c:947-976 | an inaccessible frame forces SIGSEGV, returns 0 and changes nothing; otherwise blocked becomes the sanitised joined mask and the context is restored; the result is the sign-extended eax, or 0 with SIGSEGV when the FP state cannot be read |
| Ia32Task.Task.RtSigreturn | arch/ia64/ia32/ia32_signal.c:979-1010 | as Sigreturn, with the frame at esp - 4 and the blocked set from `uc_sigmask` |
| Ia32Task.Task.Sigsuspend | arch/ia64/ia32/ia32_signal.c:455-468 | the old blocked set is saved, the new one is the mask minus SIGKILL/SIGSTOP, restore-on-exit is requested, and the result is -ERESTARTNOHAND |
| Hsmmc.DetectSdhci0IrqCd | arch/arm/plat-s3c/dev-hsmmc.c:42-49 | 1 exactly when GPN13 (bit 13) is low, 0 exactly when it is high |
| Hsmmc.DetectReadsOnlyGpn13 | arch/arm/plat-s3c/dev-hsmmc.c:46-48 | two register values that agree on GPN13 give the same answer |
| Hsmmc.DefaultPlatdata | arch/arm/plat-s3c/dev-hsmmc.c:66-73 | no contract of its own: the default platform data, 4-bit width, the three caps, the GPN13 card-detect hooks and S3C_EINT(13); `Hsmmc.MergedKeepsDefaults` |
| Hsmmc.MergedChangesOnlySetMembers | arch/arm/plat-s3c/dev-hsmmc.c:91-104 | max_width is always taken; any other member changes only when the board sets it, and then to the board's value |
| Hsmmc.MergedTakesSetMembers | arch/arm/plat-s3c/dev-hsmmc.c:93-104 | every member the board sets ends up in the record |
| Hsmmc.MergedIdempotent | arch/arm/plat-s3c/dev-hsmmc.c:89-104 | applying the same board record twice gives what applying it once does |
| Hsmmc.MergedFullRecordReplaces | arch/arm/plat-s3c/dev-hsmmc.c:89-104 | a board record that sets every member replaces the record |
| Hsmmc.MergedKeepsDefaults | arch/arm/plat-s3c/dev-hsmmc.c:66-73 | a board without caps keeps the 4-bit and both high-speed caps; one without card-detect members keeps GPN13 card detect |
| Hsmmc.Merged | arch/arm/plat-s3c/dev-hsmmc.c:89-104 | no contract of its own: the platform data after s3c_sdhci0_set_platdata, `max_width` always taken, every other member only when set; `Hsmmc.MergedChangesOnlySetMembers`, `Hsmmc.MergedTakesSetMembers`, `Hsmmc.MergedIdempotent` |
| Hsmmc.SdhciPlatdata.Default | arch/arm/plat-s3c/dev-hsmmc.c:66-73 | the static default record: 4-bit bus, default caps, GPN13 card-detect hooks and S3C_EINT(13) |
| Hsmmc.SdhciPlatdata.SetPlatdata | arch/arm/plat-s3c/dev-hsmmc.c:87-105 | the record becomes the merge of the old record with the board's, and the board's record is left unchanged |

## Left out

- Floating-point format conversion (`ia64f2ia32f`, `ia32f2ia64f`, `ia64_stfe`, `ia64_ldfe`, `ia64_stf8`, `ia64_ldf8`): these are compiler intrinsics on 80- and 82-bit floats, so register contents are opaque 80-bit values moved between slots.
- The source of f8..f11 (`pt_regs`) versus f12..f15 (live registers): they are one eight-register sequence here, because the distinction is only where the processor keeps them.
- Locking, `recalc_sigpending`, `schedule()` and `current->state`: scheduler plumbing around the blocked-set assignment, which is what is modelled.
- Calls into the generic kernel: `do_sigaction` and `sys_rt_sigprocmask` are inputs (their result and the old action or set they report). `force_sig` and `force_sigsegv` are the `segvForced` flag. `set_restore_sigmask` is the `restoreSigmask` flag. `set_fs`/`get_fs` and `ia32_load_segment_descriptors` are not modelled. `do_sigaltstack` in sys32_rt_sigreturn is not modelled: its effect on the alternate stack is generic code.
- `sys32_signal`, `sys32_sigaction` and `sys32_rt_sigqueueinfo`: wrappers around the generic code that only reuse `sigact_set_handler` and the siginfo copy.
- The `#if 0` blocks (ia32_signal.c lines 620-623, 639-647, 649-651, 735-753, 841-848, 919-926): they are never compiled.
- Page faults inside `__put_user`/`__get_user`/`copy_to_user`, and the guard page that ia64's start-address-only `__access_ok` relies on: the model's `Frames.Accessible` tests the whole range and an access fails only by that test. Once a frame passes its check, all nested accesses lie inside it (`Frames.FrameCoversContext`, a consequence of this abstraction), so the `err |=` accumulations after the frame check are always 0. The resulting "goto give_sigsegv" after a partial write cannot occur.
- SigInfo.CopySiginfoToUser32, SigInfo.CopySiginfoFromUser32: the word-by-word copies with their `err |=` accumulators are modelled on values, as one readable or writable flag for the whole record, and not as writes in place.
- SigAction.RtSigaction: `act` and `oact` are each one readable or writable flag. An `oact` that is only partly writable makes the source return -EFAULT or the count of mask bytes left uncopied (1 to 8), and the model does not produce those values.
- SigAction.RtSigprocmask: `set` and `oset` are each one readable or writable flag over the first sigsetsize bytes. A partial fault there gives -EFAULT in the source as well.
- User memory as records: frames and FP images are typed records at their addresses, not bytes. Overlapping records and aliasing between a frame and other user data are not modelled.
- The layout headers (`struct sigframe_ia32`, `struct rt_sigframe_ia32`, `compat_siginfo_t`, `siginfo_t`, asm/ia32.h, asm/signal.h, linux/mmc/host.h, plat/sdhci.h, mach/irqs.h) are not part of this model. Their constants (frame sizes and offsets, SA_* and SS_* flags, IA32_GATE_OFFSET, union word positions, MMC_CAP_* values) are written out in the Dafny. The `rt_sigframe_ia32` offsets follow from the struct declarations at ia32_signal.c lines 43-62 with the ia64 `struct ucontext_ia32`, whose `uc_sigmask` is an 8-byte-aligned unsigned long at +112.
- Ia32Task.Task.SetupFrame, Ia32Task.Task.SetupRtFrame: the `exec_domain` and its `signal_invmap` are passed in as an optional 32-entry table (`invmap`) rather than read from the thread.
- Ia32Task.Task.Sigreturn, Ia32Task.Task.RtSigreturn: the return value is the system call's result; assembly writes it to `r8`, and that is not modelled.
- `setup_sdhci0_irq_cd`, the `readl` of the GPN data register, and the resource and platform-device tables of dev-hsmmc.c: GPIO and interrupt configuration, hardware I/O and declarative tables. The register value is a parameter of Hsmmc.DetectSdhci0IrqCd.
- Hsmmc.SdhciPlatdata.Default: `S3C_EINT(13)` is a parameter, because the interrupt numbering of the machine is not part of this model.
- Function pointers in the platform data are names (`Callback`): a pointer is compared only with NULL.
