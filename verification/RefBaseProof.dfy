/** What every step of the RefBase protocol keeps, and what follows over whole runs. */
module RefBaseProof {
  import opened RefBase

  // ----- counting over all threads

  datatype Totals = Totals(
    strong: nat,      // strong references mStrong counts
    weak: nat,        // weak references mWeak counts, implied ones included
    unbias: nat,      // incStrong calls that owe the removal of the bias
    fix: nat,         // attemptIncStrong calls before the end of their fix-up
    dying: nat,       // decStrong calls that saw the last strong reference go, up to the end of `delete this`
    last: nat,        // the thread that dropped the last weak reference, by how far it has got
    lastDtor: nat,
    lastFree: nat,
    freeRefs: nat)

  function Only(strong: nat, weak: nat): Totals { Totals(strong, weak, 0, 0, 0, 0, 0, 0, 0) }

  function Add(a: Totals, b: Totals): Totals {
    Totals(a.strong + b.strong, a.weak + b.weak, a.unbias + b.unbias, a.fix + b.fix,
           a.dying + b.dying, a.last + b.last, a.lastDtor + b.lastDtor,
           a.lastFree + b.lastFree, a.freeRefs + b.freeRefs)
  }

  /** What a call in progress adds beyond the references its thread holds. */
  function InFlight(pc: Pc): Totals {
    match pc
    case IncStrongCount(_) => Only(0, 1)
    case IncStrongUnbias => Only(1, 1).(unbias := 1)
    case IncStrongFirst => Only(1, 1)
    case DecStrongCount => Only(1, 1)
    case DecStrongLast => Only(0, 1).(dying := 1)
    case DtorReadStrong(after) => Dtor(after)
    case DtorReadWeak(after) => Dtor(after)
    case DtorFreeRefs(after) => Dtor(after)
    case DtorFreeObject(after) => if after.ThenDecWeak? then Only(0, 1).(dying := 1) else Only(0, 0).(lastFree := 1)
    case DecWeakCount => Only(0, 1)
    case DecWeakLast => Only(0, 0).(last := 1)
    case DecWeakFreeRefs => Only(0, 0).(freeRefs := 1)
    case AttemptLoad => Only(0, 1)
    case AttemptTry(_) => Only(0, 1)
    case AttemptFirst(_) => Only(0, 1)
    case AttemptFirstLoad => Only(0, 1)
    case AttemptAsk => Only(0, 1)
    case AttemptExtend => Only(0, 1)
    case AttemptNotify => Only(1, 1).(fix := 1)
    case FixLoad => Only(1, 1).(fix := 1)
    case FixTry(_) => Only(1, 1).(fix := 1)
    case _ => Only(0, 0)
  }

  function Dtor(after: After): Totals {
    if after.ThenDecWeak? then Only(0, 1).(dying := 1) else Only(0, 0).(lastDtor := 1)
  }

  /** What one thread adds; a strong reference always implies a weak one. */
  function Share(t: Thread): Totals {
    Add(Only(t.strong, t.strong + t.weak), InFlight(t.pc))
  }

  function One(b: bool): nat { if b then 1 else 0 }

  function Total(ns: seq<Totals>): Totals {
    if ns == [] then Only(0, 0) else Add(ns[0], Total(ns[1..]))
  }

  function Shares(ts: seq<Thread>): seq<Totals> {
    seq(|ts|, i requires 0 <= i < |ts| => Share(ts[i]))
  }

  function Sum(ts: seq<Thread>): Totals { Total(Shares(ts)) }

  /** All but entry i. */
  function Others(ns: seq<Totals>, i: nat): Totals
    requires i < |ns|
  {
    Total(ns[..i] + ns[i + 1..])
  }

  lemma {:induction false} TotalSplits(ns: seq<Totals>, i: nat)
    requires i < |ns|
    ensures Total(ns) == Add(ns[i], Others(ns, i))
  {
    if i == 0 {
      assert ns[..0] + ns[1..] == ns[1..];
    } else {
      TotalSplits(ns[1..], i - 1);
      assert ns[1..][..i - 1] + ns[1..][i..] == (ns[..i] + ns[i + 1..])[1..];
    }
  }

  lemma SumSplits(ts: seq<Thread>, i: nat, t: Thread)
    requires i < |ts|
    ensures Sum(ts) == Add(Share(ts[i]), Others(Shares(ts), i))
    ensures Sum(ts[i := t]) == Add(Share(t), Others(Shares(ts), i))
  {
    TotalSplits(Shares(ts), i);
    TotalSplits(Shares(ts[i := t]), i);
    assert Shares(ts[i := t])[i + 1..] == Shares(ts)[i + 1..];
    assert Shares(ts[i := t])[..i] == Shares(ts)[..i];
  }

  /** Strong references imply weak ones, and a fix-up or a dying object belongs to a reference. */
  predicate Sane(n: Totals) {
    n.unbias + n.fix <= n.strong && n.strong + n.dying <= n.weak
  }

  lemma TotalSane(ns: seq<Totals>)
    requires forall i :: 0 <= i < |ns| ==> Sane(ns[i])
    ensures Sane(Total(ns))
  {
  }

  // ----- the invariant

  /** The counters are what the threads hold and are doing, plus the bias while it is owed. */
  ghost predicate CountsExact(m: Shared, n: Totals) {
    && m.mWeak == n.weak
    && m.mStrong == n.strong + (if m.mStrong >= BIAS then BIAS else 0)
    && n.weak < BIAS
  }

  /** Whoever must still remove the bias is on the way to do so. */
  ghost predicate BiasOwed(m: Shared, n: Totals) {
    && n.unbias <= 1
    && (n.unbias == 1 ==> m.mStrong >= BIAS)
    && (m.mStrong > BIAS ==> n.unbias + n.fix >= 1)
  }

  /** Clean-up belongs to one thread, when nothing else is left. */
  ghost predicate EndingExact(m: Shared, n: Totals) {
    var ending := n.last + n.lastDtor + n.lastFree + n.freeRefs;
    && ending <= 1
    && (ending == 1 ==> m.used && n.weak == 0)
    && (!m.used ==> n.weak == 0 && m.mStrong == BIAS)
    && (m.lifetime.StrongLifetime? ==> n.dying <= 1)
    && (m.lifetime.StrongLifetime? && n.dying == 1 ==> m.mStrong == 0)
    && (n.freeRefs == 1 ==> m.lifetime.StrongLifetime? && m.mStrong == 0)
    && (m.lifetime.StrongLifetime? && n.lastDtor + n.lastFree == 1 ==> m.mStrong == BIAS)
  }

  ghost predicate RefsMustLive(m: Shared, n: Totals) {
    !m.used || n.weak >= 1 || n.last + n.lastDtor + n.freeRefs >= 1
  }

  ghost predicate ObjectMustLive(m: Shared, n: Totals) {
    || !m.used
    || n.lastDtor + n.lastFree >= 1
    || (m.lifetime.WeakLifetime? && n.weak + n.last >= 1)
    || (m.lifetime.StrongLifetime? && n.dying >= 1)
    || (m.lifetime.StrongLifetime? && m.mStrong > 0 && n.weak + n.last >= 1)
  }

  /** Each of the two allocations is freed once, exactly when nothing needs it any more. */
  ghost predicate MemoryExact(m: Shared, n: Totals) {
    && m.refsFrees == One(!RefsMustLive(m, n))
    && m.objectFrees == One(!ObjectMustLive(m, n))
    && !m.fault
  }

  ghost predicate SharedOk(m: Shared, n: Totals) {
    CountsExact(m, n) && BiasOwed(m, n) && EndingExact(m, n) && MemoryExact(m, n)
  }

  /** What a program counter says about its own thread. */
  ghost predicate ThreadOk(m: Shared, t: Thread, isCreator: bool) {
    match t.pc
    case IncStrongWeak(raw) => if raw then isCreator && (!m.used || t.weak >= 1) else t.strong >= 1
    case IncStrongCount(raw) => !raw ==> t.strong >= 1
    case IncWeakCount(viaObject, raw) =>
      if raw then isCreator && viaObject && (!m.used || t.weak >= 1)
      else if viaObject then t.strong >= 1
      else t.strong + t.weak >= 1
    case AttemptWeak => t.weak >= 1
    case AttemptTry(cur) => cur > 0 && cur != BIAS
    case AttemptFirst(cur) => cur > 0 && m.lifetime.StrongLifetime?
    case AttemptFirstLoad => m.lifetime.StrongLifetime?
    case AttemptAsk => m.lifetime.WeakLifetime?
    case AttemptExtend => m.lifetime.WeakLifetime?
    case FixTry(cur) => cur >= BIAS
    case AttemptWeakLoad => t.strong + t.weak >= 1
    case AttemptWeakTry(cur) => t.strong + t.weak >= 1 && cur > 0
    case DtorReadStrong(after) => after.ThenDecWeak? ==> m.lifetime.StrongLifetime?
    case DtorReadWeak(after) => m.lifetime.WeakLifetime? && after.ThenReturn?
    case DtorFreeRefs(after) => after.ThenReturn?
    case DtorFreeObject(after) => after.ThenDecWeak? ==> m.lifetime.StrongLifetime?
    case _ => true
  }

  ghost predicate Inv(s: State) {
    && s.creator < |s.threads|
    && (forall i :: 0 <= i < |s.threads| ==> ThreadOk(s.mem, s.threads[i], i == s.creator))
    && SharedOk(s.mem, Sum(s.threads))
  }

  /** An incStrong or a fix-up in flight counts a strong reference, and each of those a weak one. */
  lemma ShareSane(t: Thread)
    ensures Sane(Share(t))
  {
    var n := InFlight(t.pc);
    assert Sane(n);
    assert Share(t) == n.(strong := t.strong + n.strong, weak := t.strong + t.weak + n.weak);
  }

  lemma SumSane(ts: seq<Thread>)
    ensures Sane(Sum(ts))
  {
    forall i | 0 <= i < |ts| ensures Sane(Shares(ts)[i]) { ShareSane(ts[i]); }
    TotalSane(Shares(ts));
  }

  /** The one harmful interleaving: a compare-and-swap of attemptIncStrong removes
      the bias while an incStrong that saw the bias is about to remove it too. */
  ghost predicate Collides(m: Shared, t: Thread, n: Totals) {
    t.pc.FixTry? && t.pc.cur == m.mStrong && n.unbias >= 1
  }

  ghost predicate Collision(s: State, i: nat, a: Action) {
    Enabled(s, i, a) && a.Go? && Collides(s.mem, s.threads[i], Sum(s.threads))
  }

  // ----- one thread's step against all the others, whatever they are

  ghost predicate Ready(m: Shared, t: Thread, isCreator: bool, rest: Totals) {
    && Sane(rest)
    && SharedOk(m, Add(Share(t), rest)) && ThreadOk(m, t, isCreator)
    && CanGo(m, t, isCreator) && !Collides(m, t, Add(Share(t), rest))
  }

  ghost predicate Kept(m: Shared, t: Thread, isCreator: bool, agree: bool, rest: Totals)
    requires !t.pc.Idle?
  {
    var m', t' := Effect(m, t), Continue(m, t, agree);
    SharedOk(m', Add(Share(t'), rest)) && ThreadOk(m', t', isCreator)
  }

  // ----- one step, program counter by program counter

  lemma NoFault(m: Shared, t: Thread, isCreator: bool, rest: Totals)
    requires Ready(m, t, isCreator, rest)
    ensures !Faults(m, t.pc)
  {
  }

  /** A step that leaves the memory and its thread's share as they were. */
  lemma Quiet(m: Shared, t: Thread, isCreator: bool, agree: bool, rest: Totals)
    requires Ready(m, t, isCreator, rest)
    requires Effect(m, t) == m && Share(Continue(m, t, agree)) == Share(t)
    ensures SharedOk(Effect(m, t), Add(Share(Continue(m, t, agree)), rest))
  {
  }

  lemma IncStrongStarts(m: Shared, t: Thread, isCreator: bool, agree: bool, rest: Totals)
    requires t.pc.IncStrongWeak? || t.pc.IncStrongCount?
    requires Ready(m, t, isCreator, rest)
    ensures Kept(m, t, isCreator, agree, rest)
  {
    NoFault(m, t, isCreator, rest);
    var m', n' := Effect(m, t), Add(Share(Continue(m, t, agree)), rest);
    assert CountsExact(m', n');
    assert BiasOwed(m', n');
    assert EndingExact(m', n');
  }

  lemma IncStrongEnds(m: Shared, t: Thread, isCreator: bool, agree: bool, rest: Totals)
    requires t.pc.IncStrongUnbias? || t.pc.IncStrongFirst?
    requires Ready(m, t, isCreator, rest)
    ensures Kept(m, t, isCreator, agree, rest)
  {
    NoFault(m, t, isCreator, rest);
    var m', n' := Effect(m, t), Add(Share(Continue(m, t, agree)), rest);
    assert CountsExact(m', n');
    assert BiasOwed(m', n');
    assert EndingExact(m', n');
  }

  lemma DecStrongCounts(m: Shared, t: Thread, isCreator: bool, agree: bool, rest: Totals)
    requires t.pc.DecStrongCount?
    requires Ready(m, t, isCreator, rest)
    ensures Kept(m, t, isCreator, agree, rest)
  {
    NoFault(m, t, isCreator, rest);
    var m', n' := Effect(m, t), Add(Share(Continue(m, t, agree)), rest);
    assert CountsExact(m', n');
    assert BiasOwed(m', n');
    assert EndingExact(m', n');
  }

  lemma DecStrongEnds(m: Shared, t: Thread, isCreator: bool, agree: bool, rest: Totals)
    requires t.pc.DecStrongLast?
    requires Ready(m, t, isCreator, rest)
    ensures Kept(m, t, isCreator, agree, rest)
  {
    NoFault(m, t, isCreator, rest);
    var m', n' := Effect(m, t), Add(Share(Continue(m, t, agree)), rest);
    assert CountsExact(m', n');
    assert BiasOwed(m', n');
    assert EndingExact(m', n');
  }

  lemma DestructorReads(m: Shared, t: Thread, isCreator: bool, agree: bool, rest: Totals)
    requires t.pc.DtorReadStrong? || t.pc.DtorReadWeak?
    requires Ready(m, t, isCreator, rest)
    ensures Kept(m, t, isCreator, agree, rest)
  {
    NoFault(m, t, isCreator, rest);
    Quiet(m, t, isCreator, agree, rest);
  }

  lemma DestructorFrees(m: Shared, t: Thread, isCreator: bool, agree: bool, rest: Totals)
    requires t.pc.DtorFreeRefs? || t.pc.DtorFreeObject?
    requires Ready(m, t, isCreator, rest)
    ensures Kept(m, t, isCreator, agree, rest)
  {
    NoFault(m, t, isCreator, rest);
    var m', n' := Effect(m, t), Add(Share(Continue(m, t, agree)), rest);
    assert CountsExact(m', n');
    assert BiasOwed(m', n');
    assert EndingExact(m', n');
  }

  lemma WeakIncrements(m: Shared, t: Thread, isCreator: bool, agree: bool, rest: Totals)
    requires t.pc.IncWeakCount? || t.pc.AttemptWeak?
    requires Ready(m, t, isCreator, rest)
    ensures Kept(m, t, isCreator, agree, rest)
  {
    NoFault(m, t, isCreator, rest);
    var m', n' := Effect(m, t), Add(Share(Continue(m, t, agree)), rest);
    assert CountsExact(m', n');
    assert BiasOwed(m', n');
    assert EndingExact(m', n');
  }

  lemma WeakDecrements(m: Shared, t: Thread, isCreator: bool, agree: bool, rest: Totals)
    requires t.pc.DecWeakCount?
    requires Ready(m, t, isCreator, rest)
    ensures Kept(m, t, isCreator, agree, rest)
  {
    NoFault(m, t, isCreator, rest);
    var m', n' := Effect(m, t), Add(Share(Continue(m, t, agree)), rest);
    assert CountsExact(m', n');
    assert BiasOwed(m', n');
    assert EndingExact(m', n');
  }

  lemma WeakEnds(m: Shared, t: Thread, isCreator: bool, agree: bool, rest: Totals)
    requires t.pc.DecWeakLast? || t.pc.DecWeakFreeRefs?
    requires Ready(m, t, isCreator, rest)
    ensures Kept(m, t, isCreator, agree, rest)
  {
    NoFault(m, t, isCreator, rest);
    var m', n' := Effect(m, t), Add(Share(Continue(m, t, agree)), rest);
    assert CountsExact(m', n');
    assert BiasOwed(m', n');
    assert EndingExact(m', n');
  }

  lemma AttemptReads(m: Shared, t: Thread, isCreator: bool, agree: bool, rest: Totals)
    requires t.pc.AttemptLoad? || t.pc.AttemptFirstLoad?
    requires Ready(m, t, isCreator, rest)
    ensures Kept(m, t, isCreator, agree, rest)
  {
    NoFault(m, t, isCreator, rest);
    Quiet(m, t, isCreator, agree, rest);
  }

  lemma AttemptAsks(m: Shared, t: Thread, isCreator: bool, agree: bool, rest: Totals)
    requires t.pc.AttemptAsk? || t.pc.AttemptNotify?
    requires Ready(m, t, isCreator, rest)
    ensures Kept(m, t, isCreator, agree, rest)
  {
    NoFault(m, t, isCreator, rest);
    Quiet(m, t, isCreator, agree, rest);
  }

  lemma AttemptSwaps(m: Shared, t: Thread, isCreator: bool, agree: bool, rest: Totals)
    requires t.pc.AttemptTry?
    requires Ready(m, t, isCreator, rest)
    ensures Kept(m, t, isCreator, agree, rest)
  {
    NoFault(m, t, isCreator, rest);
    if m.mStrong != t.pc.cur {
      Quiet(m, t, isCreator, agree, rest);
    } else {
      var m', n' := Effect(m, t), Add(Share(Continue(m, t, agree)), rest);
      assert CountsExact(m', n');
      assert BiasOwed(m', n');
      assert EndingExact(m', n');
    }
  }

  lemma AttemptSwapsFirst(m: Shared, t: Thread, isCreator: bool, agree: bool, rest: Totals)
    requires t.pc.AttemptFirst?
    requires Ready(m, t, isCreator, rest)
    ensures Kept(m, t, isCreator, agree, rest)
  {
    NoFault(m, t, isCreator, rest);
    if m.mStrong != t.pc.cur {
      Quiet(m, t, isCreator, agree, rest);
    } else {
      var m', n' := Effect(m, t), Add(Share(Continue(m, t, agree)), rest);
      assert CountsExact(m', n');
      assert BiasOwed(m', n');
      assert EndingExact(m', n');
    }
  }

  lemma AttemptExtends(m: Shared, t: Thread, isCreator: bool, agree: bool, rest: Totals)
    requires t.pc.AttemptExtend?
    requires Ready(m, t, isCreator, rest)
    ensures Kept(m, t, isCreator, agree, rest)
  {
    NoFault(m, t, isCreator, rest);
    var m', n' := Effect(m, t), Add(Share(Continue(m, t, agree)), rest);
    assert CountsExact(m', n');
    assert BiasOwed(m', n');
    assert EndingExact(m', n');
  }

  lemma FixReads(m: Shared, t: Thread, isCreator: bool, agree: bool, rest: Totals)
    requires t.pc.FixLoad?
    requires Ready(m, t, isCreator, rest)
    ensures Kept(m, t, isCreator, agree, rest)
  {
    NoFault(m, t, isCreator, rest);
    var m', n' := Effect(m, t), Add(Share(Continue(m, t, agree)), rest);
    assert CountsExact(m', n');
    assert BiasOwed(m', n');
    assert EndingExact(m', n');
  }

  lemma FixSwaps(m: Shared, t: Thread, isCreator: bool, agree: bool, rest: Totals)
    requires t.pc.FixTry?
    requires Ready(m, t, isCreator, rest)
    ensures Kept(m, t, isCreator, agree, rest)
  {
    NoFault(m, t, isCreator, rest);
    if m.mStrong != t.pc.cur {
      Quiet(m, t, isCreator, agree, rest);
    } else {
      var m', n' := Effect(m, t), Add(Share(Continue(m, t, agree)), rest);
      assert CountsExact(m', n');
      assert BiasOwed(m', n');
      assert EndingExact(m', n');
    }
  }

  lemma AttemptWeakReads(m: Shared, t: Thread, isCreator: bool, agree: bool, rest: Totals)
    requires t.pc.AttemptWeakLoad?
    requires Ready(m, t, isCreator, rest)
    ensures Kept(m, t, isCreator, agree, rest)
  {
    NoFault(m, t, isCreator, rest);
    Quiet(m, t, isCreator, agree, rest);
  }

  lemma AttemptWeakSwaps(m: Shared, t: Thread, isCreator: bool, agree: bool, rest: Totals)
    requires t.pc.AttemptWeakTry?
    requires Ready(m, t, isCreator, rest)
    ensures Kept(m, t, isCreator, agree, rest)
  {
    NoFault(m, t, isCreator, rest);
    if m.mWeak != t.pc.cur {
      Quiet(m, t, isCreator, agree, rest);
    } else {
      var m', n' := Effect(m, t), Add(Share(Continue(m, t, agree)), rest);
      assert CountsExact(m', n');
      assert BiasOwed(m', n');
      assert EndingExact(m', n');
    }
  }

  lemma GoLocal(m: Shared, t: Thread, isCreator: bool, agree: bool, rest: Totals)
    requires Ready(m, t, isCreator, rest)
    ensures Kept(m, t, isCreator, agree, rest)
  {
    match t.pc {
      case IncStrongWeak(_) => IncStrongStarts(m, t, isCreator, agree, rest);
      case IncStrongCount(_) => IncStrongStarts(m, t, isCreator, agree, rest);
      case IncStrongUnbias => IncStrongEnds(m, t, isCreator, agree, rest);
      case IncStrongFirst => IncStrongEnds(m, t, isCreator, agree, rest);
      case DecStrongCount => DecStrongCounts(m, t, isCreator, agree, rest);
      case DecStrongLast => DecStrongEnds(m, t, isCreator, agree, rest);
      case DtorReadStrong(_) => DestructorReads(m, t, isCreator, agree, rest);
      case DtorReadWeak(_) => DestructorReads(m, t, isCreator, agree, rest);
      case DtorFreeRefs(_) => DestructorFrees(m, t, isCreator, agree, rest);
      case DtorFreeObject(_) => DestructorFrees(m, t, isCreator, agree, rest);
      case IncWeakCount(_, _) => WeakIncrements(m, t, isCreator, agree, rest);
      case AttemptWeak => WeakIncrements(m, t, isCreator, agree, rest);
      case DecWeakCount => WeakDecrements(m, t, isCreator, agree, rest);
      case DecWeakLast => WeakEnds(m, t, isCreator, agree, rest);
      case DecWeakFreeRefs => WeakEnds(m, t, isCreator, agree, rest);
      case AttemptLoad => AttemptReads(m, t, isCreator, agree, rest);
      case AttemptFirstLoad => AttemptReads(m, t, isCreator, agree, rest);
      case AttemptAsk => AttemptAsks(m, t, isCreator, agree, rest);
      case AttemptNotify => AttemptAsks(m, t, isCreator, agree, rest);
      case AttemptTry(_) => AttemptSwaps(m, t, isCreator, agree, rest);
      case AttemptFirst(_) => AttemptSwapsFirst(m, t, isCreator, agree, rest);
      case AttemptExtend => AttemptExtends(m, t, isCreator, agree, rest);
      case FixLoad => FixReads(m, t, isCreator, agree, rest);
      case FixTry(_) => FixSwaps(m, t, isCreator, agree, rest);
      case AttemptWeakLoad => AttemptWeakReads(m, t, isCreator, agree, rest);
      case AttemptWeakTry(_) => AttemptWeakSwaps(m, t, isCreator, agree, rest);
    }
  }

  /** A step does not disturb what holds of another thread. */
  lemma Bystander(m: Shared, t: Thread, isCreator: bool, rest: Totals, u: Thread, uIsCreator: bool)
    requires Ready(m, t, isCreator, rest)
    requires ThreadOk(m, u, uIsCreator) && !(isCreator && uIsCreator)
    ensures ThreadOk(Effect(m, t), u, uIsCreator)
  {
    assert Effect(m, t).lifetime == m.lifetime;
    if !m.used && Effect(m, t).used {
      assert t.strong + t.weak == 0;
    }
  }

  // ----- every action of every thread

  lemma OthersSane(ts: seq<Thread>, i: nat)
    requires i < |ts|
    ensures Sane(Others(Shares(ts), i))
  {
    TotalSane(Shares(ts)[..i] + Shares(ts)[i + 1..]);
  }

  lemma GoKeeps(s: State, i: nat, agree: bool)
    requires Inv(s) && Enabled(s, i, Go(agree)) && !Collision(s, i, Go(agree))
    ensures Inv(Step(s, i, Go(agree)))
  {
    var t, isCreator := s.threads[i], i == s.creator;
    var rest := Others(Shares(s.threads), i);
    OthersSane(s.threads, i);
    SumSplits(s.threads, i, Continue(s.mem, t, agree));
    GoLocal(s.mem, t, isCreator, agree, rest);
    BystandersKeep(s, i, rest);
  }

  /** All other threads' assumptions survive the step. */
  lemma BystandersKeep(s: State, i: nat, rest: Totals)
    requires Inv(s) && i < |s.threads| && rest == Others(Shares(s.threads), i)
    requires Ready(s.mem, s.threads[i], i == s.creator, rest)
    ensures forall j :: 0 <= j < |s.threads| && j != i ==>
      ThreadOk(Effect(s.mem, s.threads[i]), s.threads[j], j == s.creator)
  {
    forall j | 0 <= j < |s.threads| && j != i
      ensures ThreadOk(Effect(s.mem, s.threads[i]), s.threads[j], j == s.creator)
    {
      Bystander(s.mem, s.threads[i], i == s.creator, rest, s.threads[j], j == s.creator);
    }
  }

  lemma CallLocal(m: Shared, t: Thread, isCreator: bool, op: Op, rest: Totals)
    requires SharedOk(m, Add(Share(t), rest)) && CanCall(m, t, isCreator, op)
    ensures var m' := m.(used := m.used || op.DeleteUnused?);
            SharedOk(m', Add(Share(Start(t, op)), rest)) && ThreadOk(m', Start(t, op), isCreator)
  {
    if op.DeleteUnused? {
      assert Add(Share(Start(t, op)), rest) == Add(Share(t), rest).(lastDtor := rest.lastDtor + 1);
    } else {
      assert Share(Start(t, op)) == Share(t);
    }
  }

  lemma CallKeeps(s: State, i: nat, op: Op)
    requires Inv(s) && Enabled(s, i, Call(op))
    ensures Inv(Step(s, i, Call(op)))
  {
    SumSplits(s.threads, i, Start(s.threads[i], op));
    CallLocal(s.mem, s.threads[i], i == s.creator, op, Others(Shares(s.threads), i));
    var s' := Step(s, i, Call(op));
    forall j | 0 <= j < |s.threads| ensures ThreadOk(s'.mem, s'.threads[j], j == s.creator) {
      assert ThreadOk(s.mem, s.threads[j], j == s.creator);
    }
  }

  lemma GiveSum(ts: seq<Thread>, i: nat, to: nat, t: Thread, u: Thread)
    requires i < |ts| && to < |ts| && i != to
    requires t.pc == ts[i].pc && u.pc == ts[to].pc
    requires t.strong + u.strong == ts[i].strong + ts[to].strong
    requires t.weak + u.weak == ts[i].weak + ts[to].weak
    ensures Sum(ts[i := t][to := u]) == Sum(ts)
  {
    SumSplits(ts, i, t);
    SumSplits(ts[i := t], to, u);
  }

  lemma GiveKeeps(s: State, i: nat, to: nat, t: Thread, u: Thread)
    requires Inv(s) && i < |s.threads| && to < |s.threads| && i != to
    requires t.pc == s.threads[i].pc == Idle && u.pc == s.threads[to].pc
    requires u.strong >= s.threads[to].strong && u.weak >= s.threads[to].weak
    requires t.strong + u.strong == s.threads[i].strong + s.threads[to].strong
    requires t.weak + u.weak == s.threads[i].weak + s.threads[to].weak
    ensures Inv(s.(threads := s.threads[i := t][to := u]))
  {
    GiveSum(s.threads, i, to, t, u);
    MoreIsOk(s.mem, s.threads[to], u, to == s.creator);
  }

  /** A thread that is given a reference may go on assuming what it assumed. */
  lemma MoreIsOk(m: Shared, t: Thread, u: Thread, isCreator: bool)
    requires ThreadOk(m, t, isCreator) && u.pc == t.pc && u.strong >= t.strong && u.weak >= t.weak
    ensures ThreadOk(m, u, isCreator)
  {
  }

  predicate Zero(n: Totals) {
    n.strong + n.weak + n.unbias + n.fix + n.dying + n.last + n.lastDtor + n.lastFree + n.freeRefs <= 0
  }

  lemma IdleShare(t: Thread)
    requires t.pc.Idle? && t.strong == t.weak == 0
    ensures Zero(Share(t))
  {
    assert t == Thread(Idle, 0, 0);
    assert InFlight(Idle) == Only(0, 0);
  }

  lemma IdleOk(m: Shared, t: Thread, isCreator: bool)
    requires t.pc.Idle?
    ensures ThreadOk(m, t, isCreator)
  {
  }

  lemma {:induction false} ZeroTotal(ns: seq<Totals>)
    requires forall i :: 0 <= i < |ns| ==> Zero(ns[i])
    ensures Zero(Total(ns))
  {
    if ns == [] {
    } else {
      ZeroTotal(ns[1..]);
    }
  }

  lemma NothingCounted(ts: seq<Thread>)
    requires forall i :: 0 <= i < |ts| ==> ts[i].pc.Idle? && ts[i].strong == ts[i].weak == 0
    ensures Zero(Sum(ts))
  {
    forall i | 0 <= i < |ts| ensures Zero(Shares(ts)[i]) { IdleShare(ts[i]); }
    ZeroTotal(Shares(ts));
  }

  lemma InitialShared(m: Shared, n: Totals)
    requires m.mStrong == BIAS && m.mWeak == 0 && !m.used && Zero(n)
    requires m.objectFrees == 0 && m.refsFrees == 0 && !m.fault
    ensures SharedOk(m, n)
  {
  }

  lemma InitialInv(s: State)
    requires Initial(s)
    ensures Inv(s)
  {
    NothingCounted(s.threads);
    InitialShared(s.mem, Sum(s.threads));
    forall i | 0 <= i < |s.threads| ensures ThreadOk(s.mem, s.threads[i], i == s.creator) {
      IdleOk(s.mem, s.threads[i], i == s.creator);
    }
  }

  lemma CollisionLocal(m: Shared, t: Thread, agree: bool, rest: Totals)
    requires SharedOk(m, Add(Share(t), rest)) && ThreadOk(m, t, false)
    requires Sane(rest) && Collides(m, t, Add(Share(t), rest))
    ensures !BiasOwed(Effect(m, t), Add(Share(Continue(m, t, agree)), rest))
  {
  }

  lemma CollisionBreaks(s: State, i: nat, a: Action)
    requires Inv(s) && Collision(s, i, a)
    ensures !Inv(Step(s, i, a))
  {
    var t := s.threads[i];
    SumSplits(s.threads, i, Continue(s.mem, t, a.agree));
    OthersSane(s.threads, i);
    assert ThreadOk(s.mem, t, i == s.creator);
    CollisionLocal(s.mem, t, a.agree, Others(Shares(s.threads), i));
  }

  lemma GiveStrongKeeps(s: State, i: nat, to: nat)
    requires Inv(s) && Enabled(s, i, GiveStrong(to))
    ensures Inv(Step(s, i, GiveStrong(to)))
  {
    var t, u := s.threads[i], s.threads[to];
    var t', u' := t.(strong := t.strong - 1), u.(strong := u.strong + 1);
    GiveKeeps(s, i, to, t', u');
    assert Step(s, i, GiveStrong(to)) == s.(threads := s.threads[i := t'][to := u']);
  }

  lemma GiveWeakKeeps(s: State, i: nat, to: nat)
    requires Inv(s) && Enabled(s, i, GiveWeak(to))
    ensures Inv(Step(s, i, GiveWeak(to)))
  {
    var t, u := s.threads[i], s.threads[to];
    var t', u' := t.(weak := t.weak - 1), u.(weak := u.weak + 1);
    GiveKeeps(s, i, to, t', u');
    assert Step(s, i, GiveWeak(to)) == s.(threads := s.threads[i := t'][to := u']);
  }

  lemma StepKeeps(s: State, i: nat, a: Action)
    requires Inv(s) && Enabled(s, i, a) && !Collision(s, i, a)
    ensures Inv(Step(s, i, a))
  {
    match a
    case Call(op) => CallKeeps(s, i, op);
    case Go(agree) => GoKeeps(s, i, agree);
    case GiveStrong(to) => GiveStrongKeeps(s, i, to);
    case GiveWeak(to) => GiveWeakKeeps(s, i, to);
  }

  /** The exact condition: an allowed action keeps the whole invariant if and only
      if it is not the compare-and-swap that removes the bias a second time. */
  lemma StepKeepsUnlessCollision(s: State, i: nat, a: Action)
    requires Inv(s) && Enabled(s, i, a)
    ensures Inv(Step(s, i, a)) <==> !Collision(s, i, a)
  {
    if Collision(s, i, a) {
      CollisionBreaks(s, i, a);
    } else {
      StepKeeps(s, i, a);
    }
  }
}
