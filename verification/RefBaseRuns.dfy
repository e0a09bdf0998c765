/** Whole runs of the RefBase protocol: safety, clean-up, and when the bias can go wrong. */
module RefBaseRuns {
  import opened RefBase
  import opened RefBaseProof

  datatype Event = Event(who: nat, what: Action)

  /** `ss` are the states and `es` the actions between them. */
  ghost predicate Run(ss: seq<State>, es: seq<Event>) {
    && |ss| == |es| + 1
    && Initial(ss[0])
    && forall k :: 0 <= k < |es| ==> StepAt(ss, es, k)
  }

  ghost predicate StepAt(ss: seq<State>, es: seq<Event>, k: nat)
    requires |ss| == |es| + 1 && k < |es|
  {
    Enabled(ss[k], es[k].who, es[k].what) && ss[k + 1] == Step(ss[k], es[k].who, es[k].what)
  }

  /** No compare-and-swap of attemptIncStrong hits an incStrong that is about to remove the bias. */
  ghost predicate Clean(ss: seq<State>, es: seq<Event>)
    requires |ss| == |es| + 1
  {
    forall k :: 0 <= k < |es| ==> CleanAt(ss, es, k)
  }

  ghost predicate CleanAt(ss: seq<State>, es: seq<Event>, k: nat)
    requires |ss| == |es| + 1 && k < |es|
  {
    !Collision(ss[k], es[k].who, es[k].what)
  }

  lemma {:induction false} RunKeepsInv(ss: seq<State>, es: seq<Event>, k: nat)
    requires Run(ss, es) && Clean(ss, es) && k < |ss|
    ensures Inv(ss[k])
  {
    if k == 0 {
      InitialInv(ss[0]);
    } else {
      RunKeepsInv(ss, es, k - 1);
      assert StepAt(ss, es, k - 1) && CleanAt(ss, es, k - 1);
      StepKeepsUnlessCollision(ss[k - 1], es[k - 1].who, es[k - 1].what);
    }
  }

  /** One step of a clean run, from a state that keeps the invariant. */
  lemma RunStep(ss: seq<State>, es: seq<Event>, k: nat)
    requires Run(ss, es) && Clean(ss, es) && k < |es|
    ensures Inv(ss[k]) && StepAt(ss, es, k)
  {
    RunKeepsInv(ss, es, k);
  }

  // ----- safety

  function HeldStrong(ts: seq<Thread>): nat { if ts == [] then 0 else ts[0].strong + HeldStrong(ts[1..]) }
  function HeldWeak(ts: seq<Thread>): nat { if ts == [] then 0 else ts[0].weak + HeldWeak(ts[1..]) }

  ghost predicate AllIdle(ts: seq<Thread>) { forall i :: 0 <= i < |ts| ==> ts[i].pc.Idle? }

  lemma {:induction false} IdleSum(ts: seq<Thread>)
    requires AllIdle(ts)
    ensures Sum(ts).strong == HeldStrong(ts) && Sum(ts).weak == HeldStrong(ts) + HeldWeak(ts)
    ensures Zero(Sum(ts).(strong := 0, weak := 0))
  {
    if ts != [] {
      IdleSum(ts[1..]);
      assert Shares(ts)[1..] == Shares(ts[1..]);
      assert InFlight(ts[0].pc) == Only(0, 0);
    }
  }

  lemma ShareCounted(ts: seq<Thread>, i: nat)
    requires i < |ts|
    ensures Sum(ts).strong >= ts[i].strong && Sum(ts).weak >= ts[i].strong + ts[i].weak
  {
    SumSplits(ts, i, ts[i]);
  }

  /** In every state of a clean run nothing freed is touched or freed again, both counters
      are non-negative, and whatever a held reference keeps alive is alive. */
  lemma NeverFreedWhileHeld(ss: seq<State>, es: seq<Event>, k: nat, i: nat)
    requires Run(ss, es) && Clean(ss, es) && k < |ss| && i < |ss[k].threads|
    ensures var m, t := ss[k].mem, ss[k].threads[i];
      && !m.fault && m.mStrong >= 0 && m.mWeak >= 0
      && m.objectFrees <= 1 && m.refsFrees <= 1
      && (t.strong + t.weak >= 1 ==> m.refsFrees == 0)
      && (t.strong >= 1 ==> m.objectFrees == 0)
      && (t.weak >= 1 && m.lifetime.WeakLifetime? ==> m.objectFrees == 0)
  {
    RunKeepsInv(ss, es, k);
    ShareCounted(ss[k].threads, i);
  }

  lemma QuiescentCounts(m: Shared, n: Totals)
    requires SharedOk(m, n) && Zero(n.(strong := 0, weak := 0)) && n.strong <= n.weak
    ensures m.mWeak == n.weak && m.mStrong == (if m.mStrong == BIAS then BIAS else n.strong)
    ensures n.strong > 0 ==> m.mStrong == n.strong
    ensures m.used && n.weak == 0 ==> m.objectFrees == 1 && m.refsFrees == 1
    ensures m.lifetime.StrongLifetime? && m.mStrong == 0 ==> m.objectFrees == 1
  {
  }

  /** Between calls the counters are exactly the references held; and once nothing
      is held any more, both allocations are gone. */
  lemma QuiescentExact(ss: seq<State>, es: seq<Event>, k: nat)
    requires Run(ss, es) && Clean(ss, es) && k < |ss| && AllIdle(ss[k].threads)
    ensures var m, ts := ss[k].mem, ss[k].threads;
      && m.mWeak == HeldStrong(ts) + HeldWeak(ts)
      && m.mStrong == (if m.mStrong == BIAS then BIAS else HeldStrong(ts))
      && (HeldStrong(ts) > 0 ==> m.mStrong == HeldStrong(ts))
      && (m.used && HeldStrong(ts) + HeldWeak(ts) == 0 ==> m.objectFrees == 1 && m.refsFrees == 1)
      && (m.lifetime.StrongLifetime? && m.mStrong == 0 ==> m.objectFrees == 1)
  {
    RunKeepsInv(ss, es, k);
    IdleSum(ss[k].threads);
    QuiescentCounts(ss[k].mem, Sum(ss[k].threads));
  }

  // ----- the last strong reference is final

  lemma ZeroIsFinal(s: State, i: nat, a: Action)
    requires Inv(s) && Enabled(s, i, a)
    requires s.mem.lifetime.StrongLifetime? && s.mem.mStrong == 0
    ensures Step(s, i, a).mem.mStrong == 0
  {
    if a.Go? {
      var t := s.threads[i];
      assert ThreadOk(s.mem, t, i == s.creator);
      SumSplits(s.threads, i, t);
    }
  }

  /** The thread holds no strong reference and is not about to be given one. */
  predicate NoStrong(t: Thread) {
    t.strong + InFlight(t.pc).strong <= 0
  }

  lemma ZeroMeansNone(s: State, i: nat)
    requires Inv(s) && s.mem.mStrong == 0 && i < |s.threads|
    ensures NoStrong(s.threads[i])
  {
    SumSplits(s.threads, i, s.threads[i]);
  }

  lemma ZeroStep(s: State, e: Event, s': State)
    requires Inv(s) && Enabled(s, e.who, e.what) && s' == Step(s, e.who, e.what)
    requires s.mem.lifetime.StrongLifetime? && s.mem.mStrong == 0
    ensures s'.mem.lifetime.StrongLifetime? && s'.mem.mStrong == 0
  {
    ZeroIsFinal(s, e.who, e.what);
  }

  lemma {:induction false} StaysZero(ss: seq<State>, es: seq<Event>, j: nat, k: nat)
    requires Run(ss, es) && Clean(ss, es) && j <= k < |ss|
    requires ss[j].mem.lifetime.StrongLifetime? && ss[j].mem.mStrong == 0
    ensures ss[k].mem.lifetime.StrongLifetime? && ss[k].mem.mStrong == 0
    decreases k
  {
    if j < k {
      StaysZero(ss, es, j, k - 1);
      RunStep(ss, es, k - 1);
      ZeroStep(ss[k - 1], es[k - 1], ss[k]);
    }
  }

  /** With the STRONG lifetime, once the strong count has reached zero it stays there:
      nobody holds a strong reference and no promotion is about to succeed. */
  lemma NoRevival(ss: seq<State>, es: seq<Event>, j: nat, k: nat)
    requires Run(ss, es) && Clean(ss, es) && j <= k < |ss|
    requires ss[j].mem.lifetime.StrongLifetime? && ss[j].mem.mStrong == 0
    ensures ss[k].mem.lifetime.StrongLifetime? && ss[k].mem.mStrong == 0
    ensures forall i :: 0 <= i < |ss[k].threads| ==> NoStrong(ss[k].threads[i])
  {
    StaysZero(ss, es, j, k);
    RunKeepsInv(ss, es, k);
    forall i | 0 <= i < |ss[k].threads| ensures NoStrong(ss[k].threads[i]) { ZeroMeansNone(ss[k], i); }
  }

  // ----- a whole promotion

  /** Where attemptIncStrong can be with the STRONG lifetime: it has given up only at a count of zero. */
  predicate Promoting(m: Shared, pc: Pc) {
    && m.lifetime.StrongLifetime?
    && (pc.AttemptWeak? || pc.AttemptLoad? || pc.AttemptTry? || pc.AttemptFirst? || pc.AttemptFirstLoad?
        || pc.AttemptNotify? || pc.FixLoad? || pc.FixTry?
        || (m.mStrong == 0 && (pc.DecWeakCount? || pc.DecWeakLast? || pc.DecWeakFreeRefs?)))
  }

  /** The caller's own step either goes on promoting, or returns: with a reference, or at a count of zero. */
  lemma PromotionLocal(m: Shared, t: Thread, isCreator: bool, agree: bool, rest: Totals)
    requires Ready(m, t, isCreator, rest) && Promoting(m, t.pc)
    ensures var m', t' := Effect(m, t), Continue(m, t, agree);
      if !t'.pc.Idle? then Promoting(m', t'.pc)
      else if t.pc.FixLoad? || t.pc.FixTry? then t'.strong == t.strong + 1
      else t'.strong == t.strong && m'.mStrong == 0
  {
  }

  lemma OwnPromotionStep(s: State, i: nat, agree: bool)
    requires Inv(s) && Enabled(s, i, Go(agree)) && !Collision(s, i, Go(agree)) && Promoting(s.mem, s.threads[i].pc)
    ensures var m, t := s.mem, s.threads[i];
      var m', t' := Effect(m, t), Continue(m, t, agree);
      if !t'.pc.Idle? then Promoting(m', t'.pc)
      else if t.pc.FixLoad? || t.pc.FixTry? then t'.strong == t.strong + 1
      else t'.strong == t.strong && m'.mStrong == 0
  {
    var t := s.threads[i];
    SumSplits(s.threads, i, t);
    OthersSane(s.threads, i);
    assert ThreadOk(s.mem, t, i == s.creator);
    PromotionLocal(s.mem, t, i == s.creator, agree, Others(Shares(s.threads), i));
  }

  /** Whoever holds a reference, the count is not zero. */
  lemma HeldIsCounted(s: State, i: nat)
    requires Inv(s) && i < |s.threads| && s.threads[i].strong >= 1
    ensures s.mem.mStrong != 0
  {
    ShareCounted(s.threads, i);
  }

  lemma OtherPromotionStep(s: State, e: Event, i: nat)
    requires Inv(s) && Enabled(s, e.who, e.what) && !(e.who == i && e.what.Go?)
    requires i < |s.threads| && Promoting(s.mem, s.threads[i].pc)
    ensures var s' := Step(s, e.who, e.what); Promoting(s'.mem, s'.threads[i].pc)
  {
    if s.mem.mStrong == 0 {
      ZeroIsFinal(s, e.who, e.what);
    }
  }

  lemma PromotionStep(s: State, e: Event, i: nat)
    requires Inv(s) && Enabled(s, e.who, e.what) && !Collision(s, e.who, e.what)
    requires i < |s.threads| && Promoting(s.mem, s.threads[i].pc)
    ensures var s' := Step(s, e.who, e.what);
      if s'.threads[i].pc.Idle? then
        e.who == i && s'.threads[i].strong == s.threads[i].strong + (if s'.mem.mStrong == 0 then 0 else 1)
      else
        Promoting(s'.mem, s'.threads[i].pc)
  {
    if e.who == i && e.what.Go? {
      var s' := Step(s, e.who, e.what);
      StepKeeps(s, e.who, e.what);
      OwnPromotionStep(s, i, e.what.agree);
      assert s'.mem == Effect(s.mem, s.threads[i]) && s'.threads[i] == Continue(s.mem, s.threads[i], e.what.agree);
      if s'.threads[i].strong >= 1 { HeldIsCounted(s', i); }
    } else {
      OtherPromotionStep(s, e, i);
    }
  }

  /** The thread is inside one call of op from event j up to state k. */
  ghost predicate InCall(ss: seq<State>, es: seq<Event>, i: nat, op: Op, j: nat, k: nat)
    requires |ss| == |es| + 1
  {
    && j + 1 < k < |ss| && es[j] == Event(i, Call(op))
    && (forall m :: j < m < k && i < |ss[m].threads| ==> !ss[m].threads[i].pc.Idle?)
  }

  lemma {:induction false} PromotionGoesOn(ss: seq<State>, es: seq<Event>, i: nat, j: nat, k: nat, m: nat)
    requires Run(ss, es) && Clean(ss, es) && InCall(ss, es, i, AttemptIncStrong, j, k)
    requires ss[j].mem.lifetime.StrongLifetime?
    requires j < m < k
    ensures i < |ss[m].threads| && Promoting(ss[m].mem, ss[m].threads[i].pc)
    decreases m
  {
    assert StepAt(ss, es, m - 1);
    if m > j + 1 {
      RunStep(ss, es, m - 1);
      PromotionGoesOn(ss, es, i, j, k, m - 1);
      assert CleanAt(ss, es, m - 1);
      PromotionStep(ss[m - 1], es[m - 1], i);
    }
  }

  /** A whole call of attemptIncStrong with the STRONG lifetime, among any other threads:
      it returns a reference if and only if the strong count is not zero when it returns. */
  lemma PromotionOutcome(ss: seq<State>, es: seq<Event>, i: nat, j: nat, k: nat)
    requires Run(ss, es) && Clean(ss, es) && InCall(ss, es, i, AttemptIncStrong, j, k)
    requires ss[j].mem.lifetime.StrongLifetime?
    requires i < |ss[k].threads| && ss[k].threads[i].pc.Idle?
    ensures es[k - 1].who == i && i < |ss[k - 1].threads|
    ensures ss[k].threads[i].strong == ss[k - 1].threads[i].strong + (if ss[k].mem.mStrong == 0 then 0 else 1)
  {
    PromotionGoesOn(ss, es, i, j, k, k - 1);
    RunStep(ss, es, k - 1);
    assert CleanAt(ss, es, k - 1);
    PromotionStep(ss[k - 1], es[k - 1], i);
  }

  // ----- a whole promotion with the WEAK lifetime, or beside other strong references

  /** Where attemptIncStrong can be with the WEAK lifetime while nobody has refused. */
  predicate Extending(pc: Pc) {
    || pc.AttemptWeak? || pc.AttemptLoad? || pc.AttemptTry? || pc.AttemptAsk? || pc.AttemptExtend?
    || pc.AttemptNotify? || pc.FixLoad? || pc.FixTry?
  }

  /** Where it can be once it has been refused: in its decWeak. */
  predicate GivingUp(pc: Pc) {
    || pc.DecWeakCount? || pc.DecWeakLast? || pc.DecWeakFreeRefs?
    || pc.DtorReadStrong? || pc.DtorReadWeak? || pc.DtorFreeRefs? || pc.DtorFreeObject?
  }

  /** No call of decWeak inside goes on to a second one. */
  predicate NotInDecStrong(pc: Pc) {
    && (pc.DtorReadStrong? ==> pc.after.ThenReturn?) && (pc.DtorReadWeak? ==> pc.after.ThenReturn?)
    && (pc.DtorFreeRefs? ==> pc.after.ThenReturn?) && (pc.DtorFreeObject? ==> pc.after.ThenReturn?)
  }

  /** onIncStrongAttempted answers no to thread i at event m. */
  ghost predicate RefusedAt(ss: seq<State>, es: seq<Event>, i: nat, m: nat)
    requires |ss| == |es| + 1 && m < |es|
  {
    i < |ss[m].threads| && ss[m].threads[i].pc.AttemptAsk? && es[m] == Event(i, Go(false))
  }

  ghost predicate Refused(ss: seq<State>, es: seq<Event>, i: nat, j: nat, k: nat)
    requires |ss| == |es| + 1 && k < |ss|
  {
    exists m :: j < m < k && RefusedAt(ss, es, i, m)
  }

  lemma ExtendingStep(s: State, e: Event, i: nat)
    requires Enabled(s, e.who, e.what) && i < |s.threads| && s.mem.lifetime.WeakLifetime?
    requires Extending(s.threads[i].pc)
    ensures var s' := Step(s, e.who, e.what);
      var refused := s.threads[i].pc.AttemptAsk? && e == Event(i, Go(false));
      && s'.mem.lifetime.WeakLifetime?
      && (refused ==> s'.threads[i].pc.DecWeakCount?)
      && (!refused && s'.threads[i].pc.Idle? ==> e.who == i && s'.threads[i].strong == s.threads[i].strong + 1)
      && (!refused && !s'.threads[i].pc.Idle? ==> Extending(s'.threads[i].pc))
  {
  }

  lemma GivingUpStep(s: State, e: Event, i: nat)
    requires Enabled(s, e.who, e.what) && i < |s.threads| && s.mem.lifetime.WeakLifetime?
    requires GivingUp(s.threads[i].pc) && NotInDecStrong(s.threads[i].pc)
    ensures var s' := Step(s, e.who, e.what);
      && s'.mem.lifetime.WeakLifetime?
      && if s'.threads[i].pc.Idle? then e.who == i && s'.threads[i].strong == s.threads[i].strong
         else GivingUp(s'.threads[i].pc) && NotInDecStrong(s'.threads[i].pc)
  {
  }

  lemma {:induction false} ExtendingGoesOn(ss: seq<State>, es: seq<Event>, i: nat, j: nat, k: nat, m: nat)
    requires Run(ss, es) && InCall(ss, es, i, AttemptIncStrong, j, k) && ss[j].mem.lifetime.WeakLifetime?
    requires j < m < k
    ensures i < |ss[m].threads| && ss[m].mem.lifetime.WeakLifetime?
    ensures if Refused(ss, es, i, j, m) then GivingUp(ss[m].threads[i].pc) && NotInDecStrong(ss[m].threads[i].pc)
            else Extending(ss[m].threads[i].pc)
    decreases m
  {
    assert StepAt(ss, es, m - 1);
    if m > j + 1 {
      ExtendingGoesOn(ss, es, i, j, k, m - 1);
      RefusedStep(ss, es, i, j, m - 1);
      if Refused(ss, es, i, j, m - 1) {
        GivingUpStep(ss[m - 1], es[m - 1], i);
      } else {
        ExtendingStep(ss[m - 1], es[m - 1], i);
      }
    }
  }

  lemma RefusedStep(ss: seq<State>, es: seq<Event>, i: nat, j: nat, m: nat)
    requires |ss| == |es| + 1 && j < m < |es|
    ensures Refused(ss, es, i, j, m + 1) <==> Refused(ss, es, i, j, m) || RefusedAt(ss, es, i, m)
  {
    if RefusedAt(ss, es, i, m) { assert j < m < m + 1; }
  }

  /** A whole call of attemptIncStrong with the WEAK lifetime, among any other threads: it returns a reference
      if and only if onIncStrongAttempted did not refuse it. */
  lemma ExtendedPromotionOutcome(ss: seq<State>, es: seq<Event>, i: nat, j: nat, k: nat)
    requires Run(ss, es) && InCall(ss, es, i, AttemptIncStrong, j, k) && ss[j].mem.lifetime.WeakLifetime?
    requires i < |ss[k].threads| && ss[k].threads[i].pc.Idle?
    ensures es[k - 1].who == i && i < |ss[k - 1].threads|
    ensures ss[k].threads[i].strong == ss[k - 1].threads[i].strong + (if Refused(ss, es, i, j, k) then 0 else 1)
  {
    ExtendingGoesOn(ss, es, i, j, k, k - 1);
    assert StepAt(ss, es, k - 1);
    RefusedStep(ss, es, i, j, k - 1);
    if Refused(ss, es, i, j, k - 1) {
      GivingUpStep(ss[k - 1], es[k - 1], i);
    } else {
      ExtendingStep(ss[k - 1], es[k - 1], i);
    }
  }

  /** Where attemptIncStrong can be while the count it reads is positive and not the bias. */
  predicate Easy(pc: Pc) {
    pc.AttemptWeak? || pc.AttemptLoad? || pc.AttemptTry? || pc.FixLoad? || pc.FixTry?
  }

  /** The object is strongly referenced: the count is positive and not the bias. */
  predicate Referenced(m: Shared) { m.mStrong > 0 && m.mStrong != BIAS }

  lemma EasyStep(s: State, e: Event, i: nat)
    requires Enabled(s, e.who, e.what) && i < |s.threads| && Referenced(s.mem) && Easy(s.threads[i].pc)
    ensures var s' := Step(s, e.who, e.what);
      if s'.threads[i].pc.Idle? then e.who == i && s'.threads[i].strong == s.threads[i].strong + 1
      else Easy(s'.threads[i].pc)
  {
  }

  lemma {:induction false} EasyGoesOn(ss: seq<State>, es: seq<Event>, i: nat, j: nat, k: nat, m: nat)
    requires Run(ss, es) && InCall(ss, es, i, AttemptIncStrong, j, k) && j < m < k
    requires forall n :: j <= n <= k ==> Referenced(ss[n].mem)
    ensures i < |ss[m].threads| && Easy(ss[m].threads[i].pc)
    decreases m
  {
    assert StepAt(ss, es, m - 1);
    if m > j + 1 {
      EasyGoesOn(ss, es, i, j, k, m - 1);
      assert Referenced(ss[m - 1].mem);
      EasyStep(ss[m - 1], es[m - 1], i);
    }
  }

  /** With either lifetime: a promotion during which the object stays strongly referenced returns a reference,
      and onIncStrongAttempted is not asked. */
  lemma ReferencedPromotionSucceeds(ss: seq<State>, es: seq<Event>, i: nat, j: nat, k: nat)
    requires Run(ss, es) && InCall(ss, es, i, AttemptIncStrong, j, k)
    requires forall n :: j <= n <= k ==> Referenced(ss[n].mem)
    requires i < |ss[k].threads| && ss[k].threads[i].pc.Idle?
    ensures es[k - 1].who == i && i < |ss[k - 1].threads|
    ensures ss[k].threads[i].strong == ss[k - 1].threads[i].strong + 1
    ensures forall m :: j < m < k && i < |ss[m].threads| ==> !ss[m].threads[i].pc.AttemptAsk?
  {
    EasyGoesOn(ss, es, i, j, k, k - 1);
    assert StepAt(ss, es, k - 1) && Referenced(ss[k - 1].mem);
    EasyStep(ss[k - 1], es[k - 1], i);
    forall m | j < m < k && i < |ss[m].threads| ensures !ss[m].threads[i].pc.AttemptAsk? {
      EasyGoesOn(ss, es, i, j, k, m);
    }
  }

  // ----- a whole weak promotion

  predicate PromotingWeak(pc: Pc) { pc.AttemptWeakLoad? || pc.AttemptWeakTry? }

  lemma WeakPromotionStep(s: State, e: Event, i: nat)
    requires Inv(s) && Enabled(s, e.who, e.what) && i < |s.threads| && PromotingWeak(s.threads[i].pc)
    ensures var s' := Step(s, e.who, e.what);
      if s'.threads[i].pc.Idle? then e.who == i && s'.threads[i].weak == s.threads[i].weak + 1
      else PromotingWeak(s'.threads[i].pc)
  {
    if e.who == i {
      assert ThreadOk(s.mem, s.threads[i], i == s.creator);
      ShareCounted(s.threads, i);
    }
  }

  lemma {:induction false} WeakPromotionGoesOn(ss: seq<State>, es: seq<Event>, i: nat, j: nat, k: nat, m: nat)
    requires Run(ss, es) && Clean(ss, es) && InCall(ss, es, i, AttemptIncWeak, j, k) && j < m < k
    ensures i < |ss[m].threads| && PromotingWeak(ss[m].threads[i].pc)
    decreases m
  {
    assert StepAt(ss, es, m - 1);
    if m > j + 1 {
      RunStep(ss, es, m - 1);
      WeakPromotionGoesOn(ss, es, i, j, k, m - 1);
      WeakPromotionStep(ss[m - 1], es[m - 1], i);
    }
  }

  /** A whole call of attemptIncWeak, among any other threads, returns a weak reference: its caller
      holds a reference, so the weak count it reads is never zero. */
  lemma WeakPromotionSucceeds(ss: seq<State>, es: seq<Event>, i: nat, j: nat, k: nat)
    requires Run(ss, es) && Clean(ss, es) && InCall(ss, es, i, AttemptIncWeak, j, k)
    requires i < |ss[k].threads| && ss[k].threads[i].pc.Idle?
    ensures es[k - 1].who == i && i < |ss[k - 1].threads|
    ensures ss[k].threads[i].weak == ss[k - 1].threads[i].weak + 1
  {
    WeakPromotionGoesOn(ss, es, i, j, k, k - 1);
    RunStep(ss, es, k - 1);
    WeakPromotionStep(ss[k - 1], es[k - 1], i);
  }

  // ----- the bias is removed once

  lemma BiasStaysRemovedLocal(m: Shared, t: Thread, isCreator: bool, rest: Totals)
    requires SharedOk(m, Add(Share(t), rest)) && ThreadOk(m, t, isCreator) && Sane(rest)
    requires CanGo(m, t, isCreator) && m.mStrong < BIAS
    ensures Effect(m, t).mStrong < BIAS
  {
  }

  lemma BiasStaysRemoved(s: State, i: nat, a: Action)
    requires Inv(s) && Enabled(s, i, a) && s.mem.mStrong < BIAS
    ensures Step(s, i, a).mem.mStrong < BIAS
  {
    if a.Go? {
      SumSplits(s.threads, i, s.threads[i]);
      OthersSane(s.threads, i);
      BiasStaysRemovedLocal(s.mem, s.threads[i], i == s.creator, Others(Shares(s.threads), i));
    }
  }

  lemma {:induction false} BiasGone(ss: seq<State>, es: seq<Event>, j: nat, k: nat)
    requires Run(ss, es) && Clean(ss, es) && j <= k < |ss|
    requires ss[j].mem.mStrong < BIAS
    ensures ss[k].mem.mStrong < BIAS
    decreases k
  {
    if j < k {
      BiasGone(ss, es, j, k - 1);
      RunStep(ss, es, k - 1);
      BiasStaysRemoved(ss[k - 1], es[k - 1].who, es[k - 1].what);
    }
  }

  ghost predicate RemovesBias(ss: seq<State>, k: nat)
    requires k + 1 < |ss|
  {
    ss[k].mem.mStrong >= BIAS > ss[k + 1].mem.mStrong
  }

  /** A clean run takes the bias away at most once. */
  lemma BiasRemovedOnce(ss: seq<State>, es: seq<Event>, j: nat, k: nat)
    requires Run(ss, es) && Clean(ss, es) && j < |es| && k < |es|
    requires RemovesBias(ss, j) && RemovesBias(ss, k)
    ensures j == k
  {
    if j < k { BiasGone(ss, es, j + 1, k); }
    if k < j { BiasGone(ss, es, k + 1, j); }
  }

  // ----- onFirstRef

  /** The thread at onFirstRef removed the bias at event j, and has not moved since. */
  ghost predicate Unbiased(ss: seq<State>, es: seq<Event>, i: nat, j: nat, k: nat)
    requires |ss| == |es| + 1 && k < |ss|
  {
    && j < k && es[j].who == i && es[j].what.Go? && i < |ss[j].threads| && ss[j].threads[i].pc.IncStrongUnbias?
    && forall m :: j < m <= k ==> i < |ss[m].threads| && ss[m].threads[i].pc.IncStrongFirst?
  }

  lemma {:induction false} FirstRefCause(ss: seq<State>, es: seq<Event>, i: nat, k: nat) returns (j: nat)
    requires Run(ss, es) && k < |ss| && i < |ss[k].threads| && ss[k].threads[i].pc.IncStrongFirst?
    ensures Unbiased(ss, es, i, j, k)
  {
    assert k > 0;
    assert StepAt(ss, es, k - 1);
    if ss[k - 1].threads[i].pc.IncStrongFirst? {
      j := FirstRefCause(ss, es, i, k - 1);
    } else {
      j := k - 1;
    }
  }

  lemma UnbiasRemoves(ss: seq<State>, es: seq<Event>, i: nat, j: nat)
    requires Run(ss, es) && Clean(ss, es) && j < |es| && es[j].who == i && es[j].what.Go?
    requires i < |ss[j].threads| && ss[j].threads[i].pc.IncStrongUnbias?
    ensures RemovesBias(ss, j) && i < |ss[j + 1].threads| && ss[j + 1].threads[i].pc.IncStrongFirst?
  {
    RunStep(ss, es, j);
    SumSplits(ss[j].threads, i, ss[j].threads[i]);
    OthersSane(ss[j].threads, i);
  }

  /** onFirstRef is called at most once in a clean run; whoever removes the bias in incStrong calls it. */
  lemma FirstRefOnce(ss: seq<State>, es: seq<Event>, i: nat, k: nat, i': nat, k': nat)
    requires Run(ss, es) && Clean(ss, es) && k < |es| && k' < |es|
    requires es[k].who == i && es[k].what.Go? && i < |ss[k].threads| && ss[k].threads[i].pc.IncStrongFirst?
    requires es[k'].who == i' && es[k'].what.Go? && i' < |ss[k'].threads| && ss[k'].threads[i'].pc.IncStrongFirst?
    ensures k == k' && i == i'
  {
    var j := FirstRefCause(ss, es, i, k);
    var j' := FirstRefCause(ss, es, i', k');
    UnbiasRemoves(ss, es, i, j);
    UnbiasRemoves(ss, es, i', j');
    BiasRemovedOnce(ss, es, j, j');
    assert StepAt(ss, es, k) && StepAt(ss, es, k');
    assert ss[k + 1].threads[i].pc.Idle? && ss[k' + 1].threads[i'].pc.Idle?;
  }

  /** Which step leads to which callback. */
  lemma CallbackDue(s: State, i: nat, agree: bool)
    requires Enabled(s, i, Go(agree))
    ensures var m, pc, pc' := s.mem, s.threads[i].pc, Step(s, i, Go(agree)).threads[i].pc;
      && (pc' == IncStrongFirst <==> pc.IncStrongUnbias?)
      && (pc' == IncStrongUnbias <==> pc.IncStrongCount? && m.mStrong == BIAS)
      && (pc' == DecStrongLast <==> pc.DecStrongCount? && m.mStrong == 1)
      && (pc' == DecWeakLast <==> pc.DecWeakCount? && m.mWeak == 1)
      && (pc' == AttemptNotify <==>
            && 0 < m.mStrong < BIAS
            && (pc.AttemptExtend? || (pc.AttemptFirst? && pc.cur == m.mStrong)))
      && (pc' == AttemptAsk <==>
            pc.AttemptLoad? && m.lifetime.WeakLifetime? && (m.mStrong <= 0 || m.mStrong == BIAS))
  {
  }

  // ----- when a run is clean

  ghost predicate NeverCalls(es: seq<Event>, op: Op) {
    forall k :: 0 <= k < |es| ==> es[k].what != Call(op)
  }

  /** A thread before the first strong reference is complete: only the creator has anything to do. */
  ghost predicate AloneOk(m: Shared, t: Thread, isCreator: bool) {
    && (isCreator ==> m.mStrong == BIAS || t.pc.IncStrongUnbias?)
    && t.strong <= 0 && t.weak <= 0
    && (t.pc.Idle? || (isCreator && CreatorPc(t.pc)))
  }

  predicate CreatorPc(pc: Pc) {
    || pc.IncStrongWeak? || pc.IncStrongCount? || pc.IncStrongUnbias?
    || pc == DtorReadStrong(ThenReturn) || pc == DtorReadWeak(ThenReturn)
    || pc == DtorFreeRefs(ThenReturn) || pc == DtorFreeObject(ThenReturn)
  }

  ghost predicate CreatorAlone(s: State) {
    s.mem.mStrong >= BIAS ==> forall i :: 0 <= i < |s.threads| ==> AloneOk(s.mem, s.threads[i], i == s.creator)
  }

  lemma AloneGoes(m: Shared, t: Thread, isCreator: bool, agree: bool)
    requires BIAS <= m.mStrong < 2 * BIAS
    requires AloneOk(m, t, isCreator) && ThreadOk(m, t, isCreator) && CanGo(m, t, isCreator)
    ensures Effect(m, t).mStrong >= BIAS ==> AloneOk(Effect(m, t), Continue(m, t, agree), isCreator)
  {
  }

  lemma AloneCalls(m: Shared, t: Thread, isCreator: bool, op: Op)
    requires AloneOk(m, t, isCreator) && CanCall(m, t, isCreator, op) && !op.CreateWeakRaw?
    ensures AloneOk(m.(used := m.used || op.DeleteUnused?), Start(t, op), isCreator)
  {
  }

  lemma CreatorStaysAlone(s: State, i: nat, a: Action)
    requires Inv(s) && Enabled(s, i, a) && CreatorAlone(s) && a != Call(CreateWeakRaw)
    ensures CreatorAlone(Step(s, i, a))
  {
    if s.mem.mStrong < BIAS {
      BiasStaysRemoved(s, i, a);
    } else {
      var t := s.threads[i];
      assert AloneOk(s.mem, t, i == s.creator);
      match a
      case Call(op) => AloneCalls(s.mem, t, i == s.creator, op);
      case Go(agree) =>
        assert ThreadOk(s.mem, t, i == s.creator);
        SumSane(s.threads);
        AloneGoes(s.mem, t, i == s.creator, agree);
      case _ =>
    }
  }

  /** No incStrong through the bare address, so none ever sees the bias. */
  ghost predicate NoWindow(s: State) {
    forall i :: 0 <= i < |s.threads| ==> !WindowPc(s.threads[i].pc)
  }

  predicate WindowPc(pc: Pc) {
    pc == IncStrongWeak(true) || pc == IncStrongCount(true) || pc.IncStrongUnbias?
  }

  lemma NoWindowLocal(m: Shared, t: Thread, agree: bool)
    requires !t.pc.Idle? && !WindowPc(t.pc) && (t.pc.IncStrongCount? ==> m.mStrong != BIAS)
    ensures !WindowPc(Continue(m, t, agree).pc)
  {
  }

  lemma NoWindowOpens(s: State, i: nat, a: Action)
    requires Inv(s) && Enabled(s, i, a) && NoWindow(s) && a != Call(IncStrongRaw)
    ensures NoWindow(Step(s, i, a))
  {
    if a.Go? {
      assert ThreadOk(s.mem, s.threads[i], i == s.creator);
      ShareCounted(s.threads, i);
      NoWindowLocal(s.mem, s.threads[i], a.agree);
    }
  }

  lemma InitialDiscipline(s: State)
    requires Initial(s)
    ensures CreatorAlone(s) && NoWindow(s)
  {
    forall i | 0 <= i < |s.threads| ensures AloneOk(s.mem, s.threads[i], i == s.creator) {
      assert s.threads[i].pc.Idle?;
    }
  }

  lemma {:induction false} DisciplineHolds(ss: seq<State>, es: seq<Event>, k: nat)
    requires Run(ss, es) && k < |ss|
    requires NeverCalls(es, CreateWeakRaw) || NeverCalls(es, IncStrongRaw)
    ensures Inv(ss[k])
    ensures NeverCalls(es, CreateWeakRaw) ==> CreatorAlone(ss[k])
    ensures NeverCalls(es, IncStrongRaw) ==> NoWindow(ss[k])
  {
    if k == 0 {
      InitialInv(ss[0]);
      InitialDiscipline(ss[0]);
    } else {
      DisciplineHolds(ss, es, k - 1);
      var s, e := ss[k - 1], es[k - 1];
      assert StepAt(ss, es, k - 1);
      NoCollisionNow(s, e.who, e.what, NeverCalls(es, CreateWeakRaw));
      StepKeepsUnlessCollision(s, e.who, e.what);
      if NeverCalls(es, CreateWeakRaw) { CreatorStaysAlone(s, e.who, e.what); }
      if NeverCalls(es, IncStrongRaw) { NoWindowOpens(s, e.who, e.what); }
    }
  }

  lemma NoCollisionNow(s: State, i: nat, a: Action, alone: bool)
    requires Inv(s) && Enabled(s, i, a)
    requires if alone then CreatorAlone(s) else NoWindow(s)
    ensures !Collision(s, i, a)
  {
    if a.Go? {
      assert ThreadOk(s.mem, s.threads[i], i == s.creator);
      if !alone {
        NoWindowCount(s.threads);
      } else if s.mem.mStrong >= BIAS {
        assert AloneOk(s.mem, s.threads[i], i == s.creator);
      }
    }
  }

  lemma {:induction false} NoWindowCount(ts: seq<Thread>)
    requires forall i :: 0 <= i < |ts| ==> !ts[i].pc.IncStrongUnbias?
    ensures Sum(ts).unbias <= 0
  {
    if ts != [] {
      NoWindowCount(ts[1..]);
      assert Shares(ts)[1..] == Shares(ts[1..]);
    }
  }

  /** A condition the clients can check: every run is clean in which no weak reference
      is made from the bare address, or no strong one is (the first strong reference
      then comes from a promotion). */
  lemma DisciplinedRunIsClean(ss: seq<State>, es: seq<Event>)
    requires Run(ss, es)
    requires NeverCalls(es, CreateWeakRaw) || NeverCalls(es, IncStrongRaw)
    ensures Clean(ss, es)
  {
    forall k | 0 <= k < |es| ensures CleanAt(ss, es, k) {
      assert StepAt(ss, es, k);
      DisciplineHolds(ss, es, k);
      NoCollisionNow(ss[k], es[k].who, es[k].what, NeverCalls(es, CreateWeakRaw));
    }
  }

  // ----- both ways to a first strong reference are open

  function Mem(l: Lifetime, strong: int, weak: int): Shared { Shared(l, strong, weak, weak > 0, 0, 0, false) }

  function Alone(m: Shared, t: Thread): State { State(m, 0, [t]) }

  /** The creator takes its first reference straight from the bare address. */
  function FirstState(l: Lifetime, k: nat): State
    requires k <= 5
  {
    if k == 0 then Alone(Mem(l, BIAS, 0), Thread(Idle, 0, 0))
    else if k == 1 then Alone(Mem(l, BIAS, 0), Thread(IncStrongWeak(true), 0, 0))
    else if k == 2 then Alone(Mem(l, BIAS, 1), Thread(IncStrongCount(true), 0, 0))
    else if k == 3 then Alone(Mem(l, BIAS + 1, 1), Thread(IncStrongUnbias, 0, 0))
    else if k == 4 then Alone(Mem(l, 1, 1), Thread(IncStrongFirst, 0, 0))
    else Alone(Mem(l, 1, 1), Thread(Idle, 1, 0))
  }

  /** The creator makes a weak reference and promotes it; the WEAK lifetime asks the object first. */
  function PromotedState(l: Lifetime, k: nat): State
    requires k <= 9
  {
    if k == 0 then Alone(Mem(l, BIAS, 0), Thread(Idle, 0, 0))
    else if k == 1 then Alone(Mem(l, BIAS, 0), Thread(IncWeakCount(true, true), 0, 0))
    else if k == 2 then Alone(Mem(l, BIAS, 1), Thread(Idle, 0, 1))
    else if k == 3 then Alone(Mem(l, BIAS, 1), Thread(AttemptWeak, 0, 1))
    else if k == 4 then Alone(Mem(l, BIAS, 2), Thread(AttemptLoad, 0, 1))
    else if k == 5 then
      Alone(Mem(l, BIAS, 2), Thread(if l.StrongLifetime? then AttemptFirst(BIAS) else AttemptAsk, 0, 1))
    else if l.WeakLifetime? && k == 6 then Alone(Mem(l, BIAS, 2), Thread(AttemptExtend, 0, 1))
    else if k == (if l.WeakLifetime? then 7 else 6) then Alone(Mem(l, BIAS + 1, 2), Thread(FixLoad, 0, 1))
    else if k == (if l.WeakLifetime? then 8 else 7) then Alone(Mem(l, BIAS + 1, 2), Thread(FixTry(BIAS + 1), 0, 1))
    else Alone(Mem(l, 1, 2), Thread(Idle, 1, 1))
  }

  function FirstEvent(k: nat): Event { Event(0, if k == 0 then Call(IncStrongRaw) else Go(true)) }

  function PromotedEvent(k: nat): Event {
    Event(0, if k == 0 then Call(CreateWeakRaw) else if k == 2 then Call(AttemptIncStrong) else Go(true))
  }

  /** The only thread takes a step. */
  lemma AloneSteps(m: Shared, t: Thread, a: Action, m': Shared, t': Thread)
    requires a.Call? || a.Go?
    requires a.Call? ==>
      CanCall(m, t, true, a.op) && t' == Start(t, a.op) && m' == m.(used := m.used || a.op.DeleteUnused?)
    requires a.Go? ==> CanGo(m, t, true) && m' == Effect(m, t) && t' == Continue(m, t, a.agree)
    ensures Enabled(Alone(m, t), 0, a) && Step(Alone(m, t), 0, a) == Alone(m', t')
  {
    assert [t][0 := t'] == [t'];
  }

  lemma FirstSteps(l: Lifetime, k: nat)
    requires k < 5
    ensures Enabled(FirstState(l, k), 0, FirstEvent(k).what)
    ensures FirstState(l, k + 1) == Step(FirstState(l, k), 0, FirstEvent(k).what)
  {
    var s, s' := FirstState(l, k), FirstState(l, k + 1);
    AloneSteps(s.mem, s.threads[0], FirstEvent(k).what, s'.mem, s'.threads[0]);
  }

  ghost predicate PromotedStepOk(l: Lifetime, k: nat)
    requires k < 9
  {
    var s, s', a := PromotedState(l, k), PromotedState(l, k + 1), PromotedEvent(k).what;
    Enabled(s, 0, a) && s' == Step(s, 0, a)
  }

  lemma PromotedStarts(l: Lifetime, k: nat)
    requires k < 4
    ensures PromotedStepOk(l, k)
  {
    var s, s' := PromotedState(l, k), PromotedState(l, k + 1);
    AloneSteps(s.mem, s.threads[0], PromotedEvent(k).what, s'.mem, s'.threads[0]);
  }

  lemma PromotedLoads(l: Lifetime)
    ensures PromotedStepOk(l, 4)
  {
    var s, s' := PromotedState(l, 4), PromotedState(l, 5);
    AloneSteps(s.mem, s.threads[0], PromotedEvent(4).what, s'.mem, s'.threads[0]);
  }

  lemma PromotedAsks(l: Lifetime, k: nat)
    requires 5 <= k < if l.StrongLifetime? then 6 else 7
    ensures PromotedStepOk(l, k)
  {
    var s, s' := PromotedState(l, k), PromotedState(l, k + 1);
    AloneSteps(s.mem, s.threads[0], PromotedEvent(k).what, s'.mem, s'.threads[0]);
  }

  lemma PromotedEnds(l: Lifetime, k: nat)
    requires if l.StrongLifetime? then 6 <= k < 8 else 7 <= k < 9
    ensures PromotedStepOk(l, k)
  {
    var s, s' := PromotedState(l, k), PromotedState(l, k + 1);
    AloneSteps(s.mem, s.threads[0], PromotedEvent(k).what, s'.mem, s'.threads[0]);
  }

  /** A creator without any weak reference gets its strong one: the first client rule admits what it must. */
  lemma FirstReferenceHappens(l: Lifetime) returns (ss: seq<State>, es: seq<Event>)
    ensures Run(ss, es) && NeverCalls(es, CreateWeakRaw) && Clean(ss, es)
    ensures ss[|es|].mem == Mem(l, 1, 1) && ss[|es|].threads == [Thread(Idle, 1, 0)]
  {
    ss := seq(6, k requires 0 <= k < 6 => FirstState(l, k));
    es := seq(5, k requires 0 <= k < 5 => FirstEvent(k));
    forall k | 0 <= k < |es| ensures StepAt(ss, es, k) { FirstSteps(l, k); }
    DisciplinedRunIsClean(ss, es);
  }

  /** So does the second: the first strong reference comes from a promotion. */
  lemma FirstPromotionHappens(l: Lifetime) returns (ss: seq<State>, es: seq<Event>)
    ensures Run(ss, es) && NeverCalls(es, IncStrongRaw) && Clean(ss, es)
    ensures ss[|es|].mem == Mem(l, 1, 2) && ss[|es|].threads == [Thread(Idle, 1, 1)]
  {
    var n := if l.StrongLifetime? then 8 else 9;
    ss := seq(n + 1, k requires 0 <= k <= n => PromotedState(l, k));
    es := seq(n, k requires 0 <= k < n => PromotedEvent(k));
    forall k | 0 <= k < |es| ensures StepAt(ss, es, k) {
      assert PromotedStepOk(l, k) by {
        if k < 4 {
          PromotedStarts(l, k);
        } else if k == 4 {
          PromotedLoads(l);
        } else if k < n - 2 {
          PromotedAsks(l, k);
        } else {
          PromotedEnds(l, k);
        }
      }
    }
    DisciplinedRunIsClean(ss, es);
  }

  // ----- outside the two rules

  /** What a collision does: the incStrong it hit then drives mStrong below zero. */
  lemma CollisionUnderflows(s: State, i: nat, a: Action, j: nat, agree: bool)
    requires Inv(s) && Collision(s, i, a)
    requires j < |s.threads| && s.threads[j].pc.IncStrongUnbias?
    ensures var s1 := Step(s, i, a);
            Enabled(s1, j, Go(agree)) && Step(s1, j, Go(agree)).mem.mStrong < 0
  {
    SumSane(s.threads);
    var s1 := Step(s, i, a);
    assert s1.threads[j] == s.threads[j];
    assert s1.mem.mStrong < BIAS;
    assert Effect(s1.mem, s1.threads[j]).mStrong == s1.mem.mStrong - BIAS;
  }

  // ----- the collision does happen: the creator shares a weak reference, then takes its first strong one

  function Two(m: Shared, a: Thread, b: Thread): State { State(m, 0, [a, b]) }

  function CollisionState(l: Lifetime, k: nat): State
    requires k <= 15
  {
    var none := Thread(Idle, 0, 0);
    var one := Thread(Idle, 0, 1);
    var window := Thread(IncStrongUnbias, 0, 1);
    if k == 0 then Two(Mem(l, BIAS, 0), none, none)
    else if k == 1 then Two(Mem(l, BIAS, 0), Thread(IncWeakCount(true, true), 0, 0), none)
    else if k == 2 then Two(Mem(l, BIAS, 1), one, none)
    else if k == 3 then Two(Mem(l, BIAS, 1), Thread(IncWeakCount(true, true), 0, 1), none)
    else if k == 4 then Two(Mem(l, BIAS, 2), Thread(Idle, 0, 2), none)
    else if k == 5 then Two(Mem(l, BIAS, 2), one, one)
    else if k == 6 then Two(Mem(l, BIAS, 2), Thread(IncStrongWeak(true), 0, 1), one)
    else if k == 7 then Two(Mem(l, BIAS, 3), Thread(IncStrongCount(true), 0, 1), one)
    else if k == 8 then Two(Mem(l, BIAS + 1, 3), window, one)
    else if k == 9 then Two(Mem(l, BIAS + 1, 3), window, Thread(AttemptWeak, 0, 1))
    else if k == 10 then Two(Mem(l, BIAS + 1, 4), window, Thread(AttemptLoad, 0, 1))
    else if k == 11 then Two(Mem(l, BIAS + 1, 4), window, Thread(AttemptTry(BIAS + 1), 0, 1))
    else if k == 12 then Two(Mem(l, BIAS + 2, 4), window, Thread(FixLoad, 0, 1))
    else if k == 13 then Two(Mem(l, BIAS + 2, 4), window, Thread(FixTry(BIAS + 2), 0, 1))
    else if k == 14 then Two(Mem(l, 2, 4), window, Thread(Idle, 1, 1))
    else Two(Mem(l, 2 - BIAS, 4), Thread(IncStrongFirst, 0, 1), Thread(Idle, 1, 1))
  }

  function CollisionEvent(k: nat): Event {
    if k == 0 || k == 2 then Event(0, Call(CreateWeakRaw))
    else if k == 4 then Event(0, GiveWeak(1))
    else if k == 5 then Event(0, Call(IncStrongRaw))
    else if k == 8 then Event(1, Call(AttemptIncStrong))
    else if k < 8 || k == 14 then Event(0, Go(true))
    else Event(1, Go(true))
  }

  ghost predicate CollisionStepOk(l: Lifetime, k: nat)
    requires k < 15
  {
    var e := CollisionEvent(k);
    Enabled(CollisionState(l, k), e.who, e.what) &&
    CollisionState(l, k + 1) == Step(CollisionState(l, k), e.who, e.what)
  }

  lemma FirstThreadMoves(m: Shared, a: Thread, b: Thread, a': Thread)
    ensures Two(m, a, b).threads[0 := a'] == [a', b]
    ensures Two(m, a, b).threads[1 := a'] == [a, a']
    ensures Two(m, a, b).threads[0 := a'][1 := b] == [a', b]
  {
  }

  lemma CollisionSetUp(l: Lifetime, k: nat)
    requires k < 5
    ensures CollisionStepOk(l, k)
  {
    var s, s' := CollisionState(l, k), CollisionState(l, k + 1);
    FirstThreadMoves(s.mem, s.threads[0], s.threads[1], s'.threads[0]);
  }

  lemma CollisionWindow(l: Lifetime, k: nat)
    requires 5 <= k < 9
    ensures CollisionStepOk(l, k)
  {
    var s, s' := CollisionState(l, k), CollisionState(l, k + 1);
    FirstThreadMoves(s.mem, s.threads[0], s.threads[1], s'.threads[0]);
    FirstThreadMoves(s.mem, s.threads[0], s.threads[1], s'.threads[1]);
  }

  lemma CollisionPromotion(l: Lifetime, k: nat)
    requires 9 <= k < 11
    ensures CollisionStepOk(l, k)
  {
    var s, s' := CollisionState(l, k), CollisionState(l, k + 1);
    FirstThreadMoves(s.mem, s.threads[0], s.threads[1], s'.threads[1]);
  }

  lemma CollisionFixUp(l: Lifetime, k: nat)
    requires 11 <= k < 13
    ensures CollisionStepOk(l, k)
  {
    var s, s' := CollisionState(l, k), CollisionState(l, k + 1);
    FirstThreadMoves(s.mem, s.threads[0], s.threads[1], s'.threads[1]);
  }

  lemma CollisionEnd(l: Lifetime, k: nat)
    requires 13 <= k < 15
    ensures CollisionStepOk(l, k)
  {
    var s, s' := CollisionState(l, k), CollisionState(l, k + 1);
    FirstThreadMoves(s.mem, s.threads[0], s.threads[1], s'.threads[0]);
    FirstThreadMoves(s.mem, s.threads[0], s.threads[1], s'.threads[1]);
  }

  /** Nothing but the discipline forbids it: for either lifetime, a run in which every
      action is allowed ends with a negative strong count. */
  lemma CollisionHappens(l: Lifetime) returns (ss: seq<State>, es: seq<Event>)
    ensures Run(ss, es) && ss[0].mem.lifetime == l
    ensures ss[|es|].mem.mStrong < 0 && !Clean(ss, es)
  {
    ss := seq(16, k requires 0 <= k < 16 => CollisionState(l, k));
    es := seq(15, k requires 0 <= k < 15 => CollisionEvent(k));
    forall k | 0 <= k < |es| ensures StepAt(ss, es, k) {
      assert CollisionStepOk(l, k) by {
        if k < 5 { CollisionSetUp(l, k); }
        else if k < 9 { CollisionWindow(l, k); }
        else if k < 11 { CollisionPromotion(l, k); }
        else if k < 13 { CollisionFixUp(l, k); }
        else { CollisionEnd(l, k); }
      }
    }
    assert ss[15].mem.mStrong < 0;
    if Clean(ss, es) {
      RunKeepsInv(ss, es, 15);
    }
  }
}
