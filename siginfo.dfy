/** Siginfo marshaller: the 64-bit `siginfo_t` and the ia32 `compat_siginfo_t`
    and the two copies between them (arch/ia64/ia32/ia32_signal.c,
    copy_siginfo_from_user32 and copy_siginfo_to_user32).

    Both records are the three header words `si_signo`, `si_errno`,
    `si_code` followed by a union of 32-bit words: 28 in the native record,
    29 in the compat one. Every union member is a view of some of those
    words, so the union is modelled as the word sequence itself and every
    member by its word index; 64-bit native members (`si_addr`, `si_band`,
    `si_utime`, `si_stime`, `si_ptr`) take two words, low word first. The
    layouts follow the ia64 `siginfo_t` and the ia32 `compat_siginfo_t`;
    those headers are not part of this model. */
module SigInfo {
  import opened Bits
  import opened Outcome

  /** Union words of the native `siginfo_t` (`SI_PAD_SIZE`). */
  const NATIVE_WORDS: nat := 28

  /** Union words of `compat_siginfo_t` (`SI_PAD_SIZE32`). */
  const COMPAT_WORDS: nat := 29

  /** Words moved for a negative `si_code`: the copies are given
      `SI_PAD_SIZE` as a byte count, 28 bytes, that is the first seven
      words of the pad. */
  const PAD_COPY_WORDS: nat := 7

  // The payload classes, `si_code >> 16` of the kernel's `__SI_*` codes.
  const SI_KILL: U32 := 0
  const SI_TIMER: U32 := 1
  const SI_POLL: U32 := 2
  const SI_FAULT: U32 := 3
  const SI_CHLD: U32 := 4
  const SI_RT: U32 := 5
  const SI_MESGQ: U32 := 6

  // Word indices of the native union members.
  const PID: nat := 0
  const UID: nat := 1
  const TID: nat := 0
  const OVERRUN: nat := 1
  const SIGVAL: nat := 2
  const STATUS: nat := 2
  const UTIME: nat := 4
  const STIME: nat := 6
  const ADDR: nat := 0
  const BAND: nat := 0
  const FD: nat := 2

  // Word indices of the compat union members that differ from the native ones.
  const UTIME32: nat := 3
  const STIME32: nat := 4
  const FD32: nat := 1

  /** The kernel's 64-bit `siginfo_t`. */
  datatype Siginfo = Siginfo(signo: U32, errno: U32, code: U32, fields: seq<U32>)

  /** The ia32 `compat_siginfo_t` as it lies in user memory. */
  datatype CompatSiginfo = CompatSiginfo(signo: U32, errno: U32, code: U32, fields: seq<U32>)

  predicate NativeShape(s: Siginfo)
  {
    |s.fields| == NATIVE_WORDS
  }

  predicate CompatShape(s: CompatSiginfo)
  {
    |s.fields| == COMPAT_WORDS
  }

  /** The payload class of a non-negative `si_code`. */
  function Class(code: U32): U32
  {
    code >> 16
  }

  /** How a copy treats the union, as chosen by `si_code`: a negative code
      copies the pad, a non-negative one the members of its class. */
  datatype Kind = Pad | Chld | Fault | Poll | Timer | RtOrMesgq | Default

  /** The union kind of `si_code`; every class without a case of its own,
      class 0 among them, is Default. */
  function KindOf(code: U32): (k: Kind)
    ensures k == Pad <==> Negative32(code)
    ensures k == Default ==> !Negative32(code) && Class(code) !in {SI_CHLD, SI_FAULT, SI_POLL, SI_TIMER, SI_RT, SI_MESGQ}
  {
    if Negative32(code) then Pad
    else
      var cls := Class(code);
      if cls == SI_CHLD then Chld
      else if cls == SI_FAULT then Fault
      else if cls == SI_POLL then Poll
      else if cls == SI_TIMER then Timer
      else if cls == SI_RT || cls == SI_MESGQ then RtOrMesgq
      else Default
  }

  /** The upper word of a 32-bit value sign-extended to 64 bits. */
  function SignWord(x: U32): U32
  {
    if Negative32(x) then 0xFFFF_FFFF else 0
  }

  /** SignWord is the upper half of the 64-bit sign extension. */
  lemma SignWordIsUpperHalf(x: U32)
    ensures SignWord(x) == Sext32(x) >> 32
  {
  }

  /** The value copy_siginfo_to_user32 stores into compat union word `d`,
      or None when it leaves that word alone: the seven pad words for a
      negative code, otherwise exactly the members of the class, each
      64-bit native member narrowed to its low word. */
  function ToUserWord(from: Siginfo, d: nat): Option<U32>
    requires NativeShape(from)
  {
    var f := from.fields;
    match KindOf(from.code)
    case Pad => if d < PAD_COPY_WORDS then Some(f[d]) else None
    case Chld =>
      if d == PID || d == UID || d == STATUS then Some(f[d])
      else if d == UTIME32 then Some(f[UTIME])
      else if d == STIME32 then Some(f[STIME])
      else None
    case Fault => if d == ADDR then Some(f[ADDR]) else None
    case Poll => if d == BAND then Some(f[BAND]) else if d == FD32 then Some(f[FD]) else None
    case Timer => if d <= SIGVAL then Some(f[d]) else None
    case RtOrMesgq => if d <= SIGVAL then Some(f[d]) else None
    case Default => if d == PID || d == UID then Some(f[d]) else None
  }

  /** The value copy_siginfo_from_user32 stores into native union word `w`,
      or None when it leaves that word alone. Signed compat members
      (`si_utime`, `si_stime`, `si_band`) are sign-extended into their two
      native words, `si_addr` is zero-extended, and the TIMER class has no
      case of its own: it is read like any other default class. */
  function FromUserWord(from: CompatSiginfo, w: nat): Option<U32>
    requires CompatShape(from)
  {
    var c := from.fields;
    match KindOf(from.code)
    case Pad => if w < PAD_COPY_WORDS then Some(c[w]) else None
    case Chld => ChldWordIn(c, w)
    case Fault => FaultWordIn(c, w)
    case Poll => PollWordIn(c, w)
    case RtOrMesgq => if w <= SIGVAL then Some(c[w]) else None
    case Timer => if w == PID || w == UID then Some(c[w]) else None
    case Default => if w == PID || w == UID then Some(c[w]) else None
  }

  /** The native word `w` of a CHLD record read from the compat words `c`. */
  function ChldWordIn(c: seq<U32>, w: nat): Option<U32>
    requires |c| == COMPAT_WORDS
  {
    if w == PID || w == UID || w == STATUS then Some(c[w])
    else if w == UTIME then Some(c[UTIME32])
    else if w == UTIME + 1 then Some(SignWord(c[UTIME32]))
    else if w == STIME then Some(c[STIME32])
    else if w == STIME + 1 then Some(SignWord(c[STIME32]))
    else None
  }

  /** The native word `w` of a FAULT record read from the compat words `c`. */
  function FaultWordIn(c: seq<U32>, w: nat): Option<U32>
    requires |c| == COMPAT_WORDS
  {
    if w == ADDR then Some(c[ADDR]) else if w == ADDR + 1 then Some(0) else None
  }

  /** The native word `w` of a POLL record read from the compat words `c`. */
  function PollWordIn(c: seq<U32>, w: nat): Option<U32>
    requires |c| == COMPAT_WORDS
  {
    if w == BAND then Some(c[BAND])
    else if w == BAND + 1 then Some(SignWord(c[BAND]))
    else if w == FD then Some(c[FD32])
    else None
  }

  /** A word after a copy: the written value if there is one, else the old word. */
  function Written(v: Option<U32>, old_: U32): U32
  {
    if v.Some? then v.value else old_
  }

  /** The union words copy_siginfo_to_user32 leaves in the user record
      `dst`, written member by member in the order of the source. */
  function ToUserFields(dst: seq<U32>, from: Siginfo): (w: seq<U32>)
    requires NativeShape(from) && |dst| == COMPAT_WORDS
    ensures |w| == COMPAT_WORDS
  {
    var f := from.fields;
    match KindOf(from.code)
    case Pad => f[..PAD_COPY_WORDS] + dst[PAD_COPY_WORDS..]
    case Chld =>
      // falls through into the default case
      dst[UTIME32 := f[UTIME]][STIME32 := f[STIME]][STATUS := f[STATUS]][PID := f[PID]][UID := f[UID]]
    case Fault => dst[ADDR := f[ADDR]]
    case Poll => dst[BAND := f[BAND]][FD32 := f[FD]]
    case Timer => dst[TID := f[TID]][OVERRUN := f[OVERRUN]][SIGVAL := f[SIGVAL]]
    case RtOrMesgq => dst[UID := f[UID]][PID := f[PID]][SIGVAL := f[SIGVAL]]
    case Default => dst[PID := f[PID]][UID := f[UID]]
  }

  /** Every union word ToUserFields leaves is the one ToUserWord names, or
      the old word where ToUserWord names none. */
  lemma ToUserFieldsWords(dst: seq<U32>, from: Siginfo)
    requires NativeShape(from) && |dst| == COMPAT_WORDS
    ensures forall d :: 0 <= d < COMPAT_WORDS ==>
      ToUserFields(dst, from)[d] == Written(ToUserWord(from, d), dst[d])
  {
  }

  /** copy_siginfo_to_user32 into the user record `dst`: EFAULT when the
      record is not writable, otherwise a complete compat record (its
      contents are stated by CopySiginfoToUser32Contents). */
  function CopySiginfoToUser32(writable: bool, dst: CompatSiginfo, from: Siginfo): (r: Result<CompatSiginfo>)
    requires NativeShape(from) && CompatShape(dst)
    ensures r.Err? <==> !writable
    ensures r.Err? ==> r.errno == EFAULT
    ensures r.Ok? ==> CompatShape(r.value)
  {
    if !writable then Err(EFAULT)
    else Ok(CompatSiginfo(from.signo, from.errno, Sext16(from.code), ToUserFields(dst.fields, from)))
  }

  /** What copy_siginfo_to_user32 writes: the header words with `si_code`
      narrowed to a `short`, and exactly the union words of ToUserWord. */
  lemma CopySiginfoToUser32Contents(dst: CompatSiginfo, from: Siginfo)
    requires NativeShape(from) && CompatShape(dst)
    ensures var r := CopySiginfoToUser32(true, dst, from).value;
      && r.signo == from.signo && r.errno == from.errno
      && r.code == Sext16(from.code)
      && forall d :: 0 <= d < COMPAT_WORDS ==> r.fields[d] == Written(ToUserWord(from, d), dst.fields[d])
  {
    ToUserFieldsWords(dst.fields, from);
  }

  /** A negative code: the first seven pad words. */
  function PadFromUser(to: seq<U32>, from: CompatSiginfo): (w: seq<U32>)
    requires CompatShape(from) && |to| == NATIVE_WORDS && KindOf(from.code) == Pad
    ensures |w| == NATIVE_WORDS
    ensures forall n :: 0 <= n < NATIVE_WORDS ==> w[n] == Written(FromUserWord(from, n), to[n])
  {
    var c := from.fields;
    c[..PAD_COPY_WORDS] + to[PAD_COPY_WORDS..]
  }

  /** CHLD: the times and status, then the default members `si_pid` and `si_uid`. */
  function ChldFromUser(to: seq<U32>, c: seq<U32>): (w: seq<U32>)
    requires |c| == COMPAT_WORDS && |to| == NATIVE_WORDS
    ensures |w| == NATIVE_WORDS
    ensures forall n :: 0 <= n < NATIVE_WORDS ==> w[n] == Written(ChldWordIn(c, n), to[n])
  {
    to[UTIME := c[UTIME32]][UTIME + 1 := SignWord(c[UTIME32])]
      [STIME := c[STIME32]][STIME + 1 := SignWord(c[STIME32])]
      [STATUS := c[STATUS]][PID := c[PID]][UID := c[UID]]
  }

  /** FAULT: `si_addr`, zero-extended from its 32-bit user form. */
  function FaultFromUser(to: seq<U32>, c: seq<U32>): (w: seq<U32>)
    requires |c| == COMPAT_WORDS && |to| == NATIVE_WORDS
    ensures |w| == NATIVE_WORDS
    ensures forall n :: 0 <= n < NATIVE_WORDS ==> w[n] == Written(FaultWordIn(c, n), to[n])
  {
    to[ADDR := c[ADDR]][ADDR + 1 := 0]
  }

  /** POLL: `si_band`, sign-extended, and `si_fd`. */
  function PollFromUser(to: seq<U32>, c: seq<U32>): (w: seq<U32>)
    requires |c| == COMPAT_WORDS && |to| == NATIVE_WORDS
    ensures |w| == NATIVE_WORDS
    ensures forall n :: 0 <= n < NATIVE_WORDS ==> w[n] == Written(PollWordIn(c, n), to[n])
  {
    to[BAND := c[BAND]][BAND + 1 := SignWord(c[BAND])][FD := c[FD32]]
  }

  /** The union words copy_siginfo_from_user32 leaves in the kernel record
      `to`: every word it reads is the one FromUserWord names and every
      other word is left alone. */
  function FromUserFields(to: seq<U32>, from: CompatSiginfo): (w: seq<U32>)
    requires CompatShape(from) && |to| == NATIVE_WORDS
    ensures |w| == NATIVE_WORDS
    ensures forall n :: 0 <= n < NATIVE_WORDS ==> w[n] == Written(FromUserWord(from, n), to[n])
  {
    var c := from.fields;
    match KindOf(from.code)
    case Pad => PadFromUser(to, from)
    case Chld => ChldFromUser(to, c)
    case Fault => FaultFromUser(to, c)
    case Poll => PollFromUser(to, c)
    case RtOrMesgq => to[PID := c[PID]][UID := c[UID]][SIGVAL := c[SIGVAL]]
    // no TIMER case of its own: the default branch
    case Timer => to[PID := c[PID]][UID := c[UID]]
    case Default => to[PID := c[PID]][UID := c[UID]]
  }

  /** copy_siginfo_from_user32 into the kernel record `to`: EFAULT when the
      user record is not readable, otherwise the three header words copied
      unchanged and exactly the union words of FromUserWord. */
  function CopySiginfoFromUser32(readable: bool, to: Siginfo, from: CompatSiginfo): (r: Result<Siginfo>)
    requires NativeShape(to) && CompatShape(from)
    ensures r.Err? <==> !readable
    ensures r.Err? ==> r.errno == EFAULT
    ensures r.Ok? ==> NativeShape(r.value)
    ensures r.Ok? ==> r.value.signo == from.signo && r.value.errno == from.errno && r.value.code == from.code
    ensures r.Ok? ==> forall n :: 0 <= n < NATIVE_WORDS ==>
      r.value.fields[n] == Written(FromUserWord(from, n), to.fields[n])
  {
    if !readable then Err(EFAULT)
    else Ok(Siginfo(from.signo, from.errno, from.code, FromUserFields(to.fields, from)))
  }

  /** Narrowing `si_code` to a `short` never leaves a payload class in the
      compat code: it is either a class-0 code or negative. */
  lemma NarrowedCodeHasNoClass(code: U32)
    requires !Negative32(code)
    ensures Class(Sext16(code)) == SI_KILL || Negative32(Sext16(code))
  {
  }

  /** A class-0 siginfo whose code fits in a `short` comes back from a round
      trip through user memory with its header, `si_pid` and `si_uid`; the
      other words are those of the kernel record read into. */
  lemma {:induction false} KillRoundTrip(x: Siginfo, dst: CompatSiginfo, to: Siginfo)
    requires NativeShape(x) && CompatShape(dst) && NativeShape(to)
    requires x.code <= 0x7FFF
    ensures var back := CopySiginfoFromUser32(true, to, CopySiginfoToUser32(true, dst, x).value).value;
      && back.signo == x.signo && back.errno == x.errno && back.code == x.code
      && back.fields[PID] == x.fields[PID] && back.fields[UID] == x.fields[UID]
      && back.fields[2..] == to.fields[2..]
  {
    CopySiginfoToUser32Contents(dst, x);
    var u := CopySiginfoToUser32(true, dst, x).value;
    var back := CopySiginfoFromUser32(true, to, u).value;
    assert u.code == x.code;
    assert u.fields[PID] == x.fields[PID] && u.fields[UID] == x.fields[UID];
    assert forall n :: 2 <= n < NATIVE_WORDS ==> back.fields[n] == to.fields[n];
  }

  /** A negative code that fits in a `short` is unchanged by the narrowing. */
  lemma ShortNegativeCodeKept(code: U32)
    requires code >= 0xFFFF_8000
    ensures Sext16(code) == code && Negative32(code)
  {
  }

  /** A negative code that fits in a `short` survives the round trip, and
      with it the seven pad words; the rest of the kernel record is left
      as it was. */
  lemma {:induction false} PadRoundTrip(x: Siginfo, dst: CompatSiginfo, to: Siginfo)
    requires NativeShape(x) && CompatShape(dst) && NativeShape(to)
    requires x.code >= 0xFFFF_8000
    ensures var back := CopySiginfoFromUser32(true, to, CopySiginfoToUser32(true, dst, x).value).value;
      && back.signo == x.signo && back.errno == x.errno && back.code == x.code
      && back.fields[..PAD_COPY_WORDS] == x.fields[..PAD_COPY_WORDS]
      && back.fields[PAD_COPY_WORDS..] == to.fields[PAD_COPY_WORDS..]
  {
    CopySiginfoToUser32Contents(dst, x);
    var u := CopySiginfoToUser32(true, dst, x).value;
    ShortNegativeCodeKept(x.code);
    var back := CopySiginfoFromUser32(true, to, u).value;
    assert forall n :: 0 <= n < PAD_COPY_WORDS ==> back.fields[n] == x.fields[n];
    assert forall n :: PAD_COPY_WORDS <= n < NATIVE_WORDS ==> back.fields[n] == to.fields[n];
  }

  /** A CHLD siginfo whose low code bits fit in a `short` loses its class
      on the way out, so the way back reads it as a class-0 record:
      `si_pid` and `si_uid` are restored but `si_status`, `si_utime` and
      `si_stime` are not, and `si_code` comes back as its low 16 bits. */
  lemma {:induction false} ChldLosesStatusOnRoundTrip(x: Siginfo, dst: CompatSiginfo, to: Siginfo)
    requires NativeShape(x) && CompatShape(dst) && NativeShape(to)
    requires KindOf(x.code) == Chld && x.code & 0x8000 == 0
    ensures var back := CopySiginfoFromUser32(true, to, CopySiginfoToUser32(true, dst, x).value).value;
      && back.code == x.code & 0xFFFF && back.code != x.code
      && back.fields[PID] == x.fields[PID] && back.fields[UID] == x.fields[UID]
      && back.fields[2..] == to.fields[2..]
  {
    CopySiginfoToUser32Contents(dst, x);
    var u := CopySiginfoToUser32(true, dst, x).value;
    var back := CopySiginfoFromUser32(true, to, u).value;
    assert u.code == x.code & 0xFFFF && KindOf(u.code) == Default;
    assert u.fields[PID] == x.fields[PID] && u.fields[UID] == x.fields[UID];
    assert forall n :: 2 <= n < NATIVE_WORDS ==> back.fields[n] == to.fields[n];
  }

  /** The asymmetry of the two directions: a TIMER record written to user
      memory carries `si_tid`, `si_overrun` and `si_ptr`, but a TIMER
      record read from user memory is read exactly like a class-0 record. */
  lemma {:induction false} TimerOnlyToUser(x: Siginfo, from: CompatSiginfo)
    requires NativeShape(x) && CompatShape(from)
    requires KindOf(x.code) == Timer && KindOf(from.code) == Timer
    ensures ToUserWord(x, TID) == Some(x.fields[TID])
    ensures ToUserWord(x, OVERRUN) == Some(x.fields[OVERRUN])
    ensures ToUserWord(x, SIGVAL) == Some(x.fields[SIGVAL])
    ensures forall n :: 0 <= n < NATIVE_WORDS ==>
      FromUserWord(from, n) == FromUserWord(from.(code := 0), n)
  {
    assert KindOf(from.(code := 0).code) == Default;
  }

  /** The copy to user memory never writes a union word outside the
      members of the record's class: for a non-negative code no word
      beyond the fifth (index 4) is ever touched, and for a negative one
      none beyond the seventh. */
  lemma ToUserTouchesOnlyMembers(x: Siginfo, d: nat)
    requires NativeShape(x) && d < COMPAT_WORDS
    ensures KindOf(x.code) != Pad && d > STIME32 ==> ToUserWord(x, d) == None
    ensures KindOf(x.code) == Pad && d >= PAD_COPY_WORDS ==> ToUserWord(x, d) == None
  {
  }
}
