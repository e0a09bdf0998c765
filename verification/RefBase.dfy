/** The reference-counting protocol of RefBase as a transition system.

  Every atomic operation on mStrong or mWeak, every destructor read and every
  `delete` is one step of one thread.  There are any number of threads, and a
  thread's program counter says which source line it executes next.  One object
  and its weakref_impl are modelled; the callbacks do nothing, except that the
  object may refuse to be revived. */
module RefBase {

  // INITIAL_STRONG_VALUE: the bias mStrong carries until the first strong reference is complete.
  const BIAS: int := 0x1000_0000

  /** The lifetime bit of mFlags, fixed before the object is shared. */
  datatype Lifetime = StrongLifetime | WeakLifetime

  /** What a destructor call returns to: decStrong goes on to decWeak, every other caller returns. */
  datatype After = ThenDecWeak | ThenReturn

  datatype Pc =
    | Idle
    | IncStrongWeak(raw: bool)     // incStrong: its incWeak
    | IncStrongCount(raw: bool)    // incStrong: mStrong++
    | IncStrongUnbias              // incStrong: saw BIAS, mStrong -= BIAS is due
    | IncStrongFirst               // incStrong: onFirstRef
    | DecStrongCount               // decStrong: mStrong--
    | DecStrongLast                // decStrong: saw 1, onLastStrongRef
    | DtorReadStrong(after: After) // ~RefBase: tests mStrong, then the flags
    | DtorReadWeak(after: After)   // ~RefBase: tests mWeak
    | DtorFreeRefs(after: After)   // ~RefBase: delete mRefs
    | DtorFreeObject(after: After) // the object's memory is returned
    | IncWeakCount(viaObject: bool, raw: bool)
    | DecWeakCount                 // decWeak: mWeak--
    | DecWeakLast                  // decWeak: saw 1
    | DecWeakFreeRefs              // decWeak: delete impl
    | AttemptWeak                  // attemptIncStrong: its incWeak
    | AttemptLoad                  // reads mStrong
    | AttemptTry(cur: int)         // compare-and-swap of the easy case
    | AttemptFirst(cur: int)       // compare-and-swap of the never-referenced case
    | AttemptFirstLoad             // re-reads mStrong after that one failed
    | AttemptAsk                   // onIncStrongAttempted
    | AttemptExtend                // mStrong++ of the extended lifetime
    | AttemptNotify                // onLastStrongRef: somebody else had a reference
    | FixLoad                      // reads mStrong for the fix-up
    | FixTry(cur: int)             // compare-and-swap that removes the bias
    | AttemptWeakLoad              // attemptIncWeak: reads mWeak
    | AttemptWeakTry(cur: int)     // attemptIncWeak: compare-and-swap

  /** A thread owns the references it holds between calls. */
  datatype Thread = Thread(pc: Pc, strong: nat, weak: nat)

  /** The memory the threads share: the two counters, the flags, and what has been freed. */
  datatype Shared = Shared(
    lifetime: Lifetime,
    mStrong: int,
    mWeak: int,
    used: bool,          // somebody took a reference, or began to delete the unreferenced object
    objectFrees: nat,
    refsFrees: nat,
    fault: bool)         // some step touched freed memory

  /** `creator` is the thread that knows the object's address without holding a reference. */
  datatype State = State(mem: Shared, creator: nat, threads: seq<Thread>)

  datatype Op =
    | IncStrong | IncStrongRaw | DecStrong | CreateWeak | CreateWeakRaw | IncWeak | DecWeak
    | AttemptIncStrong | AttemptIncWeak | DeleteUnused

  datatype Action =
    | Call(op: Op)           // an idle thread enters an operation
    | Go(agree: bool)        // the thread takes its next step; agree is onIncStrongAttempted's answer
    | GiveStrong(to: nat)    // an idle thread hands one of its references to another
    | GiveWeak(to: nat)

  // ----- the client discipline

  /** The creator may use the bare address while nobody else can have used it, or
      while it holds a weak reference, and the object is still there. */
  predicate RawOk(m: Shared, t: Thread, isCreator: bool) {
    isCreator && (!m.used || t.weak >= 1) && (m.mStrong > 0 || m.lifetime.WeakLifetime?)
  }

  predicate CanCall(m: Shared, t: Thread, isCreator: bool, op: Op) {
    && t.pc.Idle?
    && match op
       case IncStrong => t.strong >= 1
       case IncStrongRaw => RawOk(m, t, isCreator) && m.mStrong > 0
       case DecStrong => t.strong >= 1
       case CreateWeak => t.strong >= 1
       case CreateWeakRaw => RawOk(m, t, isCreator)
       case IncWeak => t.strong >= 1 || t.weak >= 1
       case DecWeak => t.weak >= 1
       case AttemptIncStrong => t.weak >= 1
       case AttemptIncWeak => t.strong >= 1 || t.weak >= 1
       case DeleteUnused => isCreator && !m.used
  }

  predicate UsesRaw(pc: Pc) {
    (pc.IncStrongWeak? && pc.raw) || (pc.IncWeakCount? && pc.raw)
  }

  predicate IncrementsWeak(pc: Pc) {
    pc.IncStrongWeak? || pc.IncWeakCount? || pc.AttemptWeak? || pc.AttemptWeakTry?
  }

  /** A step is taken only by a busy thread, uses the bare address as RawOk says, and keeps the
      number of references below 2^28. Once incStrong has taken its own weak reference, only
      its assertion that the strong count has not run out is left to meet. */
  predicate CanGo(m: Shared, t: Thread, isCreator: bool) {
    && !t.pc.Idle?
    && (UsesRaw(t.pc) ==> RawOk(m, t, isCreator))
    && (t.pc == IncStrongCount(true) ==> isCreator && m.mStrong > 0)
    && (IncrementsWeak(t.pc) ==> m.mWeak + 1 < BIAS)
  }

  predicate Enabled(s: State, i: nat, a: Action) {
    && i < |s.threads|
    && var t := s.threads[i];
       match a
       case Call(op) => CanCall(s.mem, t, i == s.creator, op)
       case Go(_) => CanGo(s.mem, t, i == s.creator)
       case GiveStrong(to) => t.pc.Idle? && t.strong >= 1 && to < |s.threads| && to != i
       case GiveWeak(to) => t.pc.Idle? && t.weak >= 1 && to < |s.threads| && to != i
  }

  // ----- the steps

  predicate TouchesRefs(pc: Pc) {
    !pc.Idle? && !pc.DtorFreeObject?
  }

  predicate TouchesObject(l: Lifetime, pc: Pc) {
    || pc.IncStrongWeak? || pc.IncStrongFirst? || pc.DecStrongCount? || pc.DecStrongLast?
    || pc.DtorReadStrong? || pc.DtorReadWeak? || pc.DtorFreeRefs? || pc.DtorFreeObject?
    || (pc.IncWeakCount? && pc.viaObject)
    || (pc.DecWeakLast? && l.WeakLifetime?)
    || pc.AttemptAsk? || pc.AttemptNotify?
  }

  predicate Faults(m: Shared, pc: Pc) {
    (TouchesRefs(pc) && m.refsFrees > 0) || (TouchesObject(m.lifetime, pc) && m.objectFrees > 0)
  }

  function Start(t: Thread, op: Op): Thread
    requires op.DecWeak? ==> t.weak >= 1
    requires op.DecStrong? ==> t.strong >= 1
  {
    match op
    case IncStrong => t.(pc := IncStrongWeak(false))
    case IncStrongRaw => t.(pc := IncStrongWeak(true))
    case DecStrong => t.(pc := DecStrongCount, strong := t.strong - 1)
    case CreateWeak => t.(pc := IncWeakCount(true, false))
    case CreateWeakRaw => t.(pc := IncWeakCount(true, true))
    case IncWeak => t.(pc := IncWeakCount(false, false))
    case DecWeak => t.(pc := DecWeakCount, weak := t.weak - 1)
    case AttemptIncStrong => t.(pc := AttemptWeak)
    case AttemptIncWeak => t.(pc := AttemptWeakLoad)
    case DeleteUnused => t.(pc := DtorReadStrong(ThenReturn))
  }

  /** Where attemptIncStrong goes once it has read `cur` from mStrong. */
  function AfterLoad(l: Lifetime, cur: int): Pc {
    if cur > 0 && cur != BIAS then AttemptTry(cur)
    else if l.WeakLifetime? then AttemptAsk
    else if cur <= 0 then DecWeakCount
    else AttemptFirst(cur)
  }

  /** Where it goes once its reference is counted, having seen `seen` before. */
  function AfterGrab(seen: int): Pc {
    if 0 < seen < BIAS then AttemptNotify else FixLoad
  }

  function Return(after: After): Pc { if after.ThenDecWeak? then DecWeakCount else Idle }

  /** The call returns with a strong (weak) reference for its caller. */
  function GotStrong(t: Thread): Thread { t.(pc := Idle, strong := t.strong + 1) }
  function GotWeak(t: Thread): Thread { t.(pc := Idle, weak := t.weak + 1) }

  /** What the next step of a thread does to the shared memory. */
  function Effect(m: Shared, t: Thread): Shared {
    var m := m.(fault := m.fault || Faults(m, t.pc));
    match t.pc
    case IncStrongWeak(_) => m.(mWeak := m.mWeak + 1, used := true)
    case IncWeakCount(_, _) => m.(mWeak := m.mWeak + 1, used := true)
    case AttemptWeak => m.(mWeak := m.mWeak + 1, used := true)
    case AttemptWeakTry(cur) => if m.mWeak == cur then m.(mWeak := cur + 1) else m
    case DecWeakCount => m.(mWeak := m.mWeak - 1)
    case IncStrongCount(_) => m.(mStrong := m.mStrong + 1)
    case IncStrongUnbias => m.(mStrong := m.mStrong - BIAS)
    case DecStrongCount => m.(mStrong := m.mStrong - 1)
    case AttemptTry(cur) => if m.mStrong == cur then m.(mStrong := cur + 1) else m
    case AttemptFirst(cur) => if m.mStrong == cur then m.(mStrong := cur + 1) else m
    case AttemptExtend => m.(mStrong := m.mStrong + 1)
    case FixTry(cur) => if m.mStrong == cur then m.(mStrong := cur - BIAS) else m
    case DtorFreeRefs(_) => m.(refsFrees := m.refsFrees + 1)
    case DecWeakFreeRefs => m.(refsFrees := m.refsFrees + 1)
    case DtorFreeObject(_) => m.(objectFrees := m.objectFrees + 1)
    case _ => m
  }

  /** Where the thread is after it; `m` is the memory before the step, and `agree`
      is what onIncStrongAttempted answers. */
  function Continue(m: Shared, t: Thread, agree: bool): Thread
    requires !t.pc.Idle?
  {
    match t.pc
    case IncStrongWeak(raw) => t.(pc := IncStrongCount(raw))
    case IncStrongCount(_) => if m.mStrong == BIAS then t.(pc := IncStrongUnbias) else GotStrong(t)
    case IncStrongUnbias => t.(pc := IncStrongFirst)
    case IncStrongFirst => GotStrong(t)
    case DecStrongCount => t.(pc := if m.mStrong == 1 then DecStrongLast else DecWeakCount)
    case DecStrongLast =>
      t.(pc := if m.lifetime.StrongLifetime? then DtorReadStrong(ThenDecWeak) else DecWeakCount)
    case DtorReadStrong(after) =>
      t.(pc := if m.mStrong == BIAS then DtorFreeRefs(after)
               else if m.lifetime.WeakLifetime? then DtorReadWeak(after)
               else DtorFreeObject(after))
    case DtorReadWeak(after) => t.(pc := if m.mWeak == 0 then DtorFreeRefs(after) else DtorFreeObject(after))
    case DtorFreeRefs(after) => t.(pc := DtorFreeObject(after))
    case DtorFreeObject(after) => t.(pc := Return(after))
    case IncWeakCount(_, _) => GotWeak(t)
    case DecWeakCount => t.(pc := if m.mWeak == 1 then DecWeakLast else Idle)
    case DecWeakLast =>
      t.(pc := if m.lifetime.StrongLifetime? && m.mStrong != BIAS then DecWeakFreeRefs
               else DtorReadStrong(ThenReturn))
    case DecWeakFreeRefs => t.(pc := Idle)
    case AttemptWeak => t.(pc := AttemptLoad)
    case AttemptLoad => t.(pc := AfterLoad(m.lifetime, m.mStrong))
    case AttemptTry(cur) => t.(pc := if m.mStrong == cur then FixLoad else AttemptLoad)
    case AttemptFirst(cur) => t.(pc := if m.mStrong == cur then AfterGrab(cur) else AttemptFirstLoad)
    case AttemptFirstLoad => t.(pc := if m.mStrong <= 0 then DecWeakCount else AttemptFirst(m.mStrong))
    case AttemptAsk => t.(pc := if agree then AttemptExtend else DecWeakCount)
    case AttemptExtend => t.(pc := AfterGrab(m.mStrong))
    case AttemptNotify => t.(pc := FixLoad)
    case FixLoad => if m.mStrong >= BIAS then t.(pc := FixTry(m.mStrong)) else GotStrong(t)
    case FixTry(cur) => if m.mStrong == cur then GotStrong(t) else t.(pc := FixLoad)
    case AttemptWeakLoad => t.(pc := if m.mWeak > 0 then AttemptWeakTry(m.mWeak) else Idle)
    case AttemptWeakTry(cur) => if m.mWeak == cur then GotWeak(t) else t.(pc := AttemptWeakLoad)
  }

  function Step(s: State, i: nat, a: Action): State
    requires Enabled(s, i, a)
  {
    var t := s.threads[i];
    match a
    case Call(op) => s.(mem := s.mem.(used := s.mem.used || op.DeleteUnused?), threads := s.threads[i := Start(t, op)])
    case Go(agree) => s.(mem := Effect(s.mem, t), threads := s.threads[i := Continue(s.mem, t, agree)])
    case GiveStrong(to) =>
      var u := s.threads[to];
      s.(threads := s.threads[i := t.(strong := t.strong - 1)][to := u.(strong := u.strong + 1)])
    case GiveWeak(to) =>
      var u := s.threads[to];
      s.(threads := s.threads[i := t.(weak := t.weak - 1)][to := u.(weak := u.weak + 1)])
  }

  predicate Initial(s: State) {
    && s.mem.mStrong == BIAS && s.mem.mWeak == 0 && !s.mem.used
    && s.mem.objectFrees == 0 && s.mem.refsFrees == 0 && !s.mem.fault
    && s.creator < |s.threads|
    && forall i :: 0 <= i < |s.threads| ==> s.threads[i] == Thread(Idle, 0, 0)
  }
}
