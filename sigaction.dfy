/** Installing and querying ia32 signal actions (arch/ia64/ia32/ia32_signal.c,
    sigact_set_handler, sys32_rt_sigaction and sys32_rt_sigprocmask).

    A 64-bit `k_sigaction` keeps the ia32 handler in the low half of
    `sa_handler` and the ia32 restorer in the high half; `IA32_SA_HANDLER`
    and `IA32_SA_RESTORER` take them apart again. The calls into the
    generic signal code (`do_sigaction`, `sys_rt_sigprocmask`) are not part
    of this model: their result is an input, and the model states what is
    passed to them and what is made of what they return. */
module SigAction {
  import opened Bits
  import opened Outcome
  import opened SigMask

  /** A user pointer argument that is read: NULL, pointing at memory that
      cannot be read, or readable with contents `value`. */
  datatype UserIn<T> = NullIn | BadIn | In(value: T)

  /** A user pointer argument that is written: NULL, pointing at memory
      that cannot be written, or writable with current contents `value`. */
  datatype UserOut<T> = NullOut | BadOut | Out(value: T)

  /** `struct sigaction32` in user memory. */
  datatype Sigaction32 = Sigaction32(handler: U32, flags: U32, restorer: U32, mask: U64)

  /** The native `k_sigaction`: packed handler, flags and the blocked set. */
  datatype KSigaction = KSigaction(handler: U64, flags: U64, mask: U64)

  /** The handler values that are not addresses: SIG_DFL (0), SIG_IGN (1)
      and SIG_ERR (-1). */
  predicate SpecialHandler(handler: U32)
  {
    handler == 0 || handler == 1 || handler == 0xFFFF_FFFF
  }

  /** The source's test `handler + 1 <= 2`, evaluated in 32-bit unsigned
      arithmetic, holds exactly for the three special handlers. */
  lemma WrappedTestIsSpecial(handler: U32)
    ensures ((handler + 1) & 0xFFFF_FFFF <= 2) <==> SpecialHandler(handler)
  {
  }

  /** sigact_set_handler: a special handler is sign-extended to 64 bits, any
      other handler is packed with the restorer in the upper half. */
  function SetHandler(handler: U32, restorer: U32): (h: U64)
    ensures SpecialHandler(handler) ==> h == Sext32(handler)
    ensures !SpecialHandler(handler) ==> h >> 32 == restorer
    ensures Lo32(h) == handler
  {
    if (handler + 1) & 0xFFFF_FFFF <= 2 then Sext32(handler)
    else (restorer << 32) | handler
  }

  /** `IA32_SA_HANDLER`: the ia32 handler, the low half. */
  function SaHandler(h: U64): U32
  {
    Lo32(h)
  }

  /** `IA32_SA_RESTORER`: the ia32 restorer, the high half. */
  function SaRestorer(h: U64): U32
  {
    h >> 32
  }

  /** Reading a handler back gives the handler that was set; the restorer
      comes back for an ordinary handler, while SIG_ERR reads back as
      restorer -1 and SIG_DFL and SIG_IGN as restorer 0. */
  lemma {:induction false} HandlerRoundTrip(handler: U32, restorer: U32)
    ensures SaHandler(SetHandler(handler, restorer)) == handler
    ensures SaRestorer(SetHandler(handler, restorer)) ==
      if !SpecialHandler(handler) then restorer
      else if handler == 0xFFFF_FFFF then 0xFFFF_FFFF
      else 0
  {
    WrappedTestIsSpecial(handler);
  }

  /** The size of `compat_sigset_t` in bytes. */
  const COMPAT_SIGSET_BYTES: U32 := 8

  /** The result of storing the old action to an `oact` none of whose bytes
      can be written: each put_user gives -EFAULT and copy_to_user the 8
      mask bytes it could not copy, and `ret |=` ORs them as a 32-bit
      two's complement int, giving `-EFAULT | 8`, which is -6. */
  const OACT_FAULT: int := -6

  /** -EFAULT as a 32-bit pattern is 0xFFFF_FFF2; OR-ing in 8 gives the
      pattern of -6, not -EFAULT. */
  lemma OactFaultValue()
    ensures 0x1_0000_0000 - EFAULT == 0xFFFF_FFF2
    ensures (0xFFFF_FFF2 as bv32 | 8) == 0xFFFF_FFFA && 0xFFFF_FFFA - 0x1_0000_0000 == OACT_FAULT
    ensures OACT_FAULT != -EFAULT
  {
  }

  /** What one sys32_rt_sigaction call does: its return value, the request
      handed to do_sigaction (None if it is not called; Some(None) for a
      query without a new action) and the record written to `oact`. */
  datatype SigactionCall = SigactionCall(ret: int, request: Option<Option<KSigaction>>, oactWritten: Option<Sigaction32>)

  /** sys32_rt_sigaction, with `doRet` and `oldKa` the result and the old
      action do_sigaction reports. */
  function RtSigaction(sigsetsize: U32, act: UserIn<Sigaction32>, oact: UserOut<Sigaction32>,
                       doRet: int, oldKa: KSigaction): (c: SigactionCall)
    ensures sigsetsize != COMPAT_SIGSET_BYTES ==> c == SigactionCall(-EINVAL, None, None)
    ensures sigsetsize == COMPAT_SIGSET_BYTES && act.BadIn? ==> c == SigactionCall(-EFAULT, None, None)
    ensures c.request.Some? <==> sigsetsize == COMPAT_SIGSET_BYTES && !act.BadIn?
    ensures c.request.Some? ==> (c.request.value.Some? <==> act.In?)
    ensures c.request.Some? && act.In? ==>
      var ka := c.request.value.value;
      && SaHandler(ka.handler) == act.value.handler
      && (!SpecialHandler(act.value.handler) ==> SaRestorer(ka.handler) == act.value.restorer)
      && ka.flags == act.value.flags && ka.mask == act.value.mask
    ensures c.oactWritten.Some? <==> c.request.Some? && doRet == 0 && oact.Out?
    ensures c.oactWritten.Some? ==>
      c.oactWritten.value == Sigaction32(SaHandler(oldKa.handler), Lo32(oldKa.flags), SaRestorer(oldKa.handler), oldKa.mask)
    ensures c.request.Some? ==> c.ret == (if doRet != 0 then doRet else if oact.BadOut? then OACT_FAULT else 0)
  {
    if sigsetsize != COMPAT_SIGSET_BYTES then SigactionCall(-EINVAL, None, None)
    else if act.BadIn? then SigactionCall(-EFAULT, None, None)
    else
      var newKa := if act.In? then
        Some(KSigaction(SetHandler(act.value.handler, act.value.restorer), act.value.flags, act.value.mask))
      else None;
      if doRet != 0 || oact.NullOut? then SigactionCall(doRet, Some(newKa), None)
      else if oact.BadOut? then SigactionCall(OACT_FAULT, Some(newKa), None)
      else
        var prior := Sigaction32(SaHandler(oldKa.handler), Lo32(oldKa.flags), SaRestorer(oldKa.handler), oldKa.mask);
        SigactionCall(0, Some(newKa), Some(prior))
  }

  /** The size of the native `sigset_t` in bytes. */
  const SIGSET_BYTES: U32 := 8

  /** What one sys32_rt_sigprocmask call does: its return value, the new
      set handed to sys_rt_sigprocmask (None if it is not called;
      Some(None) for a query) and the value left in the user's `oset`. */
  datatype ProcmaskCall = ProcmaskCall(ret: int, request: Option<Option<U64>>, osetWritten: Option<U64>)

  /** sys32_rt_sigprocmask, with `doRet` and `oldBlocked` the result and the
      old blocked set sys_rt_sigprocmask reports. Only the first
      `sigsetsize` bytes are read from `newSet` and written to `oset`; with
      sigsetsize 0 nothing is read or written, so neither pointer can fault
      and a non-NULL `set` hands on the zeroed set. */
  function RtSigprocmask(sigsetsize: U32, newSet: UserIn<U64>, oset: UserOut<U64>,
                         doRet: int, oldBlocked: U64): (c: ProcmaskCall)
    ensures sigsetsize > SIGSET_BYTES ==> c == ProcmaskCall(-EINVAL, None, None)
    ensures sigsetsize <= SIGSET_BYTES && sigsetsize > 0 && newSet.BadIn? ==> c == ProcmaskCall(-EFAULT, None, None)
    ensures c.request.Some? <==> sigsetsize <= SIGSET_BYTES && !(sigsetsize > 0 && newSet.BadIn?)
    ensures c.request.Some? ==> (c.request.value.Some? <==> !newSet.NullIn?)
    ensures c.request.Some? && newSet.In? ==> c.request.value.value == CopyBytes(0, newSet.value, sigsetsize)
    ensures c.request.Some? && newSet.BadIn? ==> c.request.value.value == 0
    ensures c.osetWritten.Some? <==> c.request.Some? && doRet == 0 && oset.Out?
    ensures c.osetWritten.Some? ==> c.osetWritten.value == CopyBytes(oset.value, oldBlocked, sigsetsize)
    ensures c.request.Some? ==>
      c.ret == (if doRet != 0 then doRet else if oset.BadOut? && sigsetsize > 0 then -EFAULT else 0)
  {
    if sigsetsize > SIGSET_BYTES then ProcmaskCall(-EINVAL, None, None)
    else if newSet.BadIn? && sigsetsize > 0 then ProcmaskCall(-EFAULT, None, None)
    else
      var s := match newSet
        case NullIn => None
        case BadIn => Some(0)
        case In(v) => Some(CopyBytes(0, v, sigsetsize));
      if doRet != 0 then ProcmaskCall(doRet, Some(s), None)
      else if oset.NullOut? then ProcmaskCall(0, Some(s), None)
      else if oset.BadOut? then ProcmaskCall(if sigsetsize > 0 then -EFAULT else 0, Some(s), None)
      else ProcmaskCall(0, Some(s), Some(CopyBytes(oset.value, oldBlocked, sigsetsize)))
  }

  /** With sigsetsize 0 the user's pointers are never dereferenced: any
      non-NULL `set`, readable or not, hands sys_rt_sigprocmask the empty
      set, a writable `oset` keeps its contents, and the call returns
      sys_rt_sigprocmask's result even for an unwritable `oset`. */
  lemma {:induction false} ZeroSizeProcmask(newSet: UserIn<U64>, oset: UserOut<U64>, doRet: int, oldBlocked: U64)
    requires !newSet.NullIn?
    ensures var c := RtSigprocmask(0, newSet, oset, doRet, oldBlocked);
      && c.request == Some(Some(0)) && c.ret == doRet
      && (c.osetWritten.Some? ==> c.osetWritten.value == oset.value)
  {
    if newSet.In? {
      CopyNoBytes(0, newSet.value);
    }
    if oset.Out? {
      CopyNoBytes(oset.value, oldBlocked);
    }
  }

  /** A full-size call passes the user's set unchanged and returns the
      whole old set. */
  lemma {:induction false} FullSizeProcmask(newSet: U64, prior: U64, oldBlocked: U64)
    ensures var c := RtSigprocmask(8, In(newSet), Out(prior), 0, oldBlocked);
      c.request == Some(Some(newSet)) && c.osetWritten == Some(oldBlocked) && c.ret == 0
  {
    CopyAllBytes(0, newSet);
    CopyAllBytes(prior, oldBlocked);
  }
}
