/** Any number of threads that make the calls of AudioLocks, one lock operation at a time. */
module AudioDeadlock {
  import opened AudioLocks

  /** Who owns each lock that is taken, which streams' mLocked is set, and what each thread has left to do. */
  datatype State = State(owner: map<Lock, nat>, locked: set<Stream>, threads: seq<Program>)

  function Initial(n: nat): State { State(map[], {}, seq(n, _ => [])) }

  predicate Unfinished(st: State, t: nat) { t < |st.threads| && st.threads[t] != [] }

  /** The lock that t waits for, or has just come to. */
  predicate Wants(st: State, t: nat, x: Lock) { Unfinished(st, t) && st.threads[t][0] == Acquire(x) }

  predicate CanStep(st: State, t: nat) {
    Unfinished(st, t) && (st.threads[t][0].Acquire? ==> st.threads[t][0].x !in st.owner)
  }

  function Step(st: State, t: nat): State
    requires CanStep(st, t)
  {
    var rest := st.threads[t][1..];
    match st.threads[t][0]
    case Acquire(x) => st.(owner := st.owner[x := t], threads := st.threads[t := rest])
    case Release(x) => st.(owner := st.owner - {x}, threads := st.threads[t := rest])
    case SetLocked(s, on) =>
      st.(locked := if on then st.locked + {s} else st.locked - {s}, threads := st.threads[t := rest])
    case LockUnlessLocked(s) =>
      st.(threads := st.threads[t := if s in st.locked then rest else [Acquire(StreamLock(s))] + rest])
    case UnlockUnlessLocked(s) =>
      st.(threads := st.threads[t := if s in st.locked then rest else [Release(StreamLock(s))] + rest])
    case Touch(_, _) => st.(threads := st.threads[t := rest])
  }

  /** A thread without a call begins one. */
  function Begin(st: State, t: nat, c: Call): State
    requires t < |st.threads| && st.threads[t] == []
  {
    st.(threads := st.threads[t := Code(c)])
  }

  // ----- the invariant

  ghost function Held(st: State, t: nat): set<Lock> { set x | x in st.owner && st.owner[x] == t }

  ghost function Flags(st: State, t: nat): set<Stream> { if Hardware in Held(st, t) then st.locked else {} }

  ghost function At(st: State, t: nat): Position { Position(Held(st, t), Flags(st, t)) }

  ghost predicate Inv(st: State) {
    && (forall t :: 0 <= t < |st.threads| ==> Exec(st.threads[t], At(st, t)) == Some(IDLE))
    && (forall x :: x in st.owner ==> st.owner[x] < |st.threads|)
    // a flag is up only while one thread owns the hardware lock and the stream's lock
    && (forall s :: s in st.locked ==> exists t :: Hardware in Held(st, t) && StreamLock(s) in Held(st, t))
  }

  lemma InitialInv(n: nat)
    ensures Inv(Initial(n))
  {
    var st := Initial(n);
    forall t: nat ensures At(st, t) == IDLE {
      assert Held(st, t) == {};
    }
  }

  lemma BeginKeeps(st: State, t: nat, c: Call)
    requires Inv(st) && t < |st.threads| && st.threads[t] == []
    ensures Inv(Begin(st, t, c))
  {
    var st' := Begin(st, t, c);
    forall u: nat ensures At(st', u) == At(st, u) {
      assert Held(st', u) == Held(st, u);
    }
    assert At(st, t) == IDLE;
    CodeSafe(c);
    forall s | s in st'.locked ensures exists u :: Hardware in Held(st', u) && StreamLock(s) in Held(st', u) {
      var u :| Hardware in Held(st, u) && StreamLock(s) in Held(st, u);
      assert At(st', u) == At(st, u);
    }
  }

  /** What the step of t does to its own position, and that it leaves all others alone. */
  lemma StepMoves(st: State, t: nat, u: nat)
    requires Inv(st) && CanStep(st, t)
    ensures u != t ==> At(Step(st, t), u) == At(st, u)
    ensures u == t ==> Exec(Step(st, t).threads[t], At(Step(st, t), t)) == Some(IDLE)
  {
    var st' := Step(st, t);
    var p, at := st.threads[t], At(st, t);
    ExecHead(p, at);
    if u != t {
      assert Held(st', u) == Held(st, u);
      assert p[0].SetLocked? ==> Hardware in at.held;
    } else {
      match p[0]
      case Acquire(x) =>
        assert Held(st', t) == Held(st, t) + {x};
        assert x == Hardware ==> st.locked == {};
      case Release(x) =>
        assert Held(st', t) == Held(st, t) - {x};
      case SetLocked(s, on) =>
        assert Held(st', t) == Held(st, t);
      case LockUnlessLocked(s) =>
        assert Held(st', t) == Held(st, t);
        assert ([Acquire(StreamLock(s))] + p[1..])[1..] == p[1..];
      case UnlockUnlessLocked(s) =>
        assert Held(st', t) == Held(st, t);
        assert ([Release(StreamLock(s))] + p[1..])[1..] == p[1..];
      case Touch(_, _) =>
        assert Held(st', t) == Held(st, t);
    }
  }

  lemma StepKeeps(st: State, t: nat)
    requires Inv(st) && CanStep(st, t)
    ensures Inv(Step(st, t))
  {
    var st' := Step(st, t);
    forall u | 0 <= u < |st'.threads| ensures Exec(st'.threads[u], At(st', u)) == Some(IDLE) {
      StepMoves(st, t, u);
    }
    var p, at := st.threads[t], At(st, t);
    ExecHead(p, at);
    forall s | s in st'.locked ensures exists u :: Hardware in Held(st', u) && StreamLock(s) in Held(st', u) {
      if s in st.locked {
        var u :| Hardware in Held(st, u) && StreamLock(s) in Held(st, u);
        if u != t {
          StepMoves(st, t, u);
          assert Held(st', u) == At(st', u).held;
        } else {
          assert p[0] != Release(Hardware) && p[0] != Release(StreamLock(s));
          assert Hardware in Held(st', t) && StreamLock(s) in Held(st', t);
        }
      } else {
        assert p[0] == SetLocked(s, true);
        assert Hardware in Held(st', t) && StreamLock(s) in Held(st', t);
      }
    }
  }

  // ----- runs

  datatype Event = Steps(t: nat) | Begins(t: nat, c: Call)

  predicate Possible(st: State, e: Event) {
    match e
    case Steps(t) => CanStep(st, t)
    case Begins(t, _) => t < |st.threads| && st.threads[t] == []
  }

  function After(st: State, e: Event): State
    requires Possible(st, e)
  {
    match e
    case Steps(t) => Step(st, t)
    case Begins(t, c) => Begin(st, t, c)
  }

  ghost predicate Run(es: seq<Event>, from: State, to: State)
    decreases |es|
  {
    if es == [] then from == to
    else Possible(from, es[0]) && Run(es[1..], After(from, es[0]), to)
  }

  lemma {:induction false} RunKeeps(es: seq<Event>, from: State, to: State)
    requires Inv(from) && Run(es, from, to)
    ensures Inv(to)
    decreases |es|
  {
    if es != [] {
      match es[0] {
        case Steps(t) => StepKeeps(from, t);
        case Begins(t, c) => BeginKeeps(from, t, c);
      }
      RunKeeps(es[1..], After(from, es[0]), to);
    }
  }

  // ----- no deadlock

  ghost predicate WaitsFor(st: State, t: nat, u: nat) {
    t != u && exists x :: Wants(st, t, x) && x in st.owner && st.owner[x] == u
  }

  function Rank(x: Lock): nat {
    match x
    case Hardware => 0
    case StreamLock(_) => 1
    case FdLock(s) => if s.Input? then 2 else 3
    case FramesLock(_) => 4
  }

  /** Twice the rank of the lock that is wanted, and one more under the hardware lock. */
  ghost function Height(st: State, t: nat): nat {
    if Unfinished(st, t) && st.threads[t][0].Acquire? then
      2 * Rank(st.threads[t][0].x) + (if Hardware in Held(st, t) then 1 else 0)
    else 10
  }

  /** Whoever is waited for has not finished, and is higher up. */
  lemma WaitingClimbs(st: State, t: nat, u: nat)
    requires Inv(st) && WaitsFor(st, t, u)
    ensures Unfinished(st, u) && Height(st, u) > Height(st, t)
  {
    var x :| Wants(st, t, x) && x in st.owner && st.owner[x] == u;
    assert x in Held(st, u);
    assert Exec(st.threads[u], At(st, u)) == Some(IDLE);
    ExecHead(st.threads[t], At(st, t));
    ExecHead(st.threads[u], At(st, u));
    assert !(Hardware in Held(st, t) && Hardware in Held(st, u));
  }

  ghost predicate Chain(st: State, path: seq<nat>) {
    forall i :: 0 < i < |path| ==> WaitsFor(st, path[i - 1], path[i])
  }

  lemma {:induction false} ChainClimbs(st: State, path: seq<nat>)
    requires Inv(st) && |path| >= 2 && Chain(st, path)
    ensures Height(st, path[|path| - 1]) > Height(st, path[0])
    decreases |path|
  {
    var k := |path| - 1;
    assert WaitsFor(st, path[k - 1], path[k]);
    WaitingClimbs(st, path[k - 1], path[k]);
    if k > 1 { ChainClimbs(st, path[..k]); }
  }

  /** In no reachable state is there a cycle of threads that wait for each other. */
  lemma NoWaitCycle(n: nat, es: seq<Event>, st: State, path: seq<nat>)
    requires Run(es, Initial(n), st) && |path| >= 2 && Chain(st, path)
    ensures path[0] != path[|path| - 1]
  {
    InitialInv(n);
    RunKeeps(es, Initial(n), st);
    ChainClimbs(st, path);
  }

  lemma {:induction false} SomeoneSteps(st: State, t: nat) returns (u: nat)
    requires Inv(st) && Unfinished(st, t)
    ensures CanStep(st, u)
    decreases 10 - Height(st, t)
  {
    if CanStep(st, t) {
      u := t;
    } else {
      var x := st.threads[t][0].x;
      var v := st.owner[x];
      ExecHead(st.threads[t], At(st, t));
      assert Wants(st, t, x) && WaitsFor(st, t, v);
      WaitingClimbs(st, t, v);
      u := SomeoneSteps(st, v);
    }
  }

  /** In every reachable state, while any thread has something left to do, some thread can go on. */
  lemma DeadlockFree(n: nat, es: seq<Event>, st: State)
    requires Run(es, Initial(n), st) && exists t :: Unfinished(st, t)
    ensures exists u :: CanStep(st, u)
  {
    InitialInv(n);
    RunKeeps(es, Initial(n), st);
    var t :| Unfinished(st, t);
    var u := SomeoneSteps(st, t);
  }

  /** A second stream lock is only ever wanted under the hardware lock. */
  lemma SecondStreamLock(n: nat, es: seq<Event>, st: State, t: nat, s: Stream, other: Stream)
    requires Run(es, Initial(n), st) && Wants(st, t, StreamLock(s)) && StreamLock(other) in Held(st, t)
    ensures Hardware in Held(st, t)
  {
    InitialInv(n);
    RunKeeps(es, Initial(n), st);
    ExecHead(st.threads[t], At(st, t));
  }

  // ----- mutual exclusion

  /** The thread has come to where it looks at or changes this part of a stream. */
  ghost predicate AtWork(st: State, t: nat, p: Part) {
    Unfinished(st, t) && p in Parts(st.threads[t][0])
  }

  /** Whoever does something to a part of a stream owns that part's lock, and to change a stream's state the
      hardware lock, too. */
  lemma WorkIsLocked(n: nat, es: seq<Event>, st: State, t: nat, p: Part)
    requires Run(es, Initial(n), st) && AtWork(st, t, p)
    ensures Guard(p) in Held(st, t)
    ensures ChangesState(st.threads[t][0].what) ==> Hardware in Held(st, t)
  {
    InitialInv(n);
    RunKeeps(es, Initial(n), st);
    ExecHead(st.threads[t], At(st, t));
  }

  /** In no reachable state are two threads at the same part of a stream, and only one changes the state of any. */
  lemma MutualExclusion(n: nat, es: seq<Event>, st: State, t: nat, u: nat, p: Part, q: Part)
    requires Run(es, Initial(n), st) && AtWork(st, t, p) && AtWork(st, u, q) && t != u
    ensures p != q
    ensures !(ChangesState(st.threads[t][0].what) && ChangesState(st.threads[u][0].what))
  {
    WorkIsLocked(n, es, st, t, p);
    WorkIsLocked(n, es, st, u, q);
  }

  /** To a thread under the hardware lock, isLocked() means that it owns that stream's lock itself. */
  lemma LockedMeansMine(n: nat, es: seq<Event>, st: State, t: nat, s: Stream)
    requires Run(es, Initial(n), st) && Hardware in Held(st, t) && s in st.locked
    ensures StreamLock(s) in Held(st, t)
  {
    InitialInv(n);
    RunKeeps(es, Initial(n), st);
  }

  lemma HeldIfTaken(st: State)
    requires Inv(st)
    ensures st.owner != map[] || st.locked != {} ==> exists t :: 0 <= t < |st.threads| && Held(st, t) != {}
  {
    assert st.locked != {} ==> exists t :: Hardware in Held(st, t);
    if x :| x in st.owner {
      assert x in Held(st, st.owner[x]);
    }
  }

  /** When all calls are over, no lock is taken and no flag is up. */
  lemma NothingLeftBehind(n: nat, es: seq<Event>, st: State)
    requires Run(es, Initial(n), st) && forall t :: 0 <= t < |st.threads| ==> st.threads[t] == []
    ensures st.owner == map[] && st.locked == {}
  {
    InitialInv(n);
    RunKeeps(es, Initial(n), st);
    HeldIfTaken(st);
    forall t | 0 <= t < |st.threads| ensures Held(st, t) == {} {
      assert At(st, t) == IDLE;
    }
  }
}
