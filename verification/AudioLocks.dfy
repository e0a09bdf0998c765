/** The locks of the audio HAL: the hardware lock, one lock per stream, one per stream's
    file descriptor, and a leaf lock for the frame counters. */
module AudioLocks {

  datatype Option<T> = None | Some(value: T)

  /** There is one output at a time, but a closed one may still be going down. */
  datatype Stream = Output(id: nat) | Input(id: nat)

  datatype Lock = Hardware | StreamLock(stream: Stream) | FdLock(stream: Stream) | FramesLock(stream: Stream)

  /** What a thread does to locks and to the mLocked flags, in program order. */
  datatype Instr =
    | Acquire(x: Lock)
    | Release(x: Lock)
    | SetLocked(s: Stream, on: bool)
    | LockUnlessLocked(s: Stream)    // if (!s->isLocked()) s->lock();
    | UnlockUnlessLocked(s: Stream)  // if (!s->isLocked()) s->unlock();
    | Touch(s: Stream, what: Use)    // the stream's state is looked at or changed

  /** What is done to a stream: setDriver_l(); online_l() and set(); standby(); what write() and read() do; the change
      of the I2S path when Bluetooth starts or stops, which is done to an active input, too; the use of a
      descriptor; the count of frames. */
  datatype Use =
    | SetDriver | Configure | GoIdle | MoveData | SwitchPath(other: Option<Stream>)
    | UseDescriptor | CountFrames

  /** Each stream's state, descriptor and frame counter has its own lock. */
  datatype Part = StateOf(s: Stream) | DescriptorOf(s: Stream) | FramesOf(s: Stream)

  function Guard(p: Part): Lock {
    match p
    case StateOf(s) => StreamLock(s)
    case DescriptorOf(s) => FdLock(s)
    case FramesOf(s) => FramesLock(s)
  }

  function PartsOf(s: Stream, what: Use): set<Part> {
    match what
    case UseDescriptor => {DescriptorOf(s)}
    case CountFrames => {FramesOf(s)}
    case SwitchPath(other) =>
      {StateOf(s), DescriptorOf(s)} + if other.Some? then {StateOf(other.value), DescriptorOf(other.value)} else {}
    case _ => {StateOf(s)}
  }

  /** The parts of streams that the next operation looks at or changes. */
  function Parts(i: Instr): set<Part> { if i.Touch? then PartsOf(i.s, i.what) else {} }

  type Program = seq<Instr>

  // ----- the programs: every branch that depends on data is a choice

  /** The use of a descriptor or of a frame counter, under its lock. */
  function Guarded(x: Lock): Program
    requires x.FdLock? || x.FramesLock?
  {
    [Acquire(x)] + [Touch(x.stream, if x.FdLock? then UseDescriptor else CountFrames)] + [Release(x)]
  }

  function Repeat(p: Program, n: nat): Program {
    if n == 0 then [] else p + Repeat(p, n - 1)
  }

  /** doRouting_l() with its mOutput, its active input and whether the Bluetooth state changes. */
  datatype Routing = NoOutput | Routing(out: nat, input: Option<nat>, btChange: bool)

  function DoRouting_l(r: Routing): Program {
    match r
    case NoOutput => []
    case Routing(out, None, btChange) => Bracketed(Output(out), Middle(out, None, btChange))
    case Routing(out, Some(id), btChange) =>
      Bracketed(Input(id), Bracketed(Output(out), Middle(out, Some(id), btChange)))
  }

  /** p between lock and unlock of the stream, unless a method of it is the caller. */
  function Bracketed(s: Stream, p: Program): Program { [LockUnlessLocked(s)] + p + [UnlockUnlessLocked(s)] }

  /** What doRouting_l() does between its locks. */
  function Middle(out: nat, input: Option<nat>, btChange: bool): Program {
    SetDrivers(out, input) + (if btChange then SwitchBluetooth(out, input) else [])
  }

  function SetDrivers(out: nat, input: Option<nat>): Program {
    [Touch(Output(out), SetDriver)] + (if input.Some? then [Touch(Input(input.value), SetDriver)] else [])
  }

  function SwitchBluetooth(out: nat, input: Option<nat>): Program {
    var fd, other := FdLock(Output(out)), if input.Some? then Some(Input(input.value)) else None;
    var switch := [Acquire(fd)] + [Touch(Output(out), SwitchPath(other))] + [Release(fd)];
    if input.None? then switch
    else [Acquire(FdLock(Input(input.value)))] + switch + [Release(FdLock(Input(input.value)))]
  }

  /** doRouting_l() from a method of s that holds s's lock. */
  function RouteLocked(s: Stream, r: Routing): Program {
    [SetLocked(s, true)] + DoRouting_l(r) + [SetLocked(s, false)]
  }

  /** standby(): nothing, or a possible routing and the flushes of what may be two output objects. */
  datatype Standby = AlreadyIdle | Standby(routing: Option<Routing>, flushes: seq<nat>)

  function Flushes(outs: seq<nat>): Program {
    if outs == [] then [] else Guarded(FdLock(Output(outs[0]))) + Flushes(outs[1..])
  }

  function StandbyBody(s: Stream, sb: Standby, what: Use): Program {
    [Touch(s, what)] +
    match sb
    case AlreadyIdle => []
    case Standby(routing, flushes) =>
      (if routing.Some? then RouteLocked(s, routing.value) else []) + Flushes(flushes)
  }

  function DoStandby(s: Stream, sb: Standby): Program {
    [Acquire(Hardware), Acquire(StreamLock(s))] + StandbyBody(s, sb, GoIdle)
    + [Release(StreamLock(s)), Release(Hardware)]
  }

  /** How write() and read() get their stream's lock: mState is looked at without, then with, the hardware lock. */
  datatype Entry = Configured | Rechecked | Online(online: Standby, frames: bool)

  function Enter(s: Stream, e: Entry): Program {
    match e
    case Configured => [Acquire(StreamLock(s))]
    case Rechecked => [Acquire(Hardware), Release(Hardware), Acquire(StreamLock(s))]
    case Online(online, frames) =>
      [Acquire(Hardware), Acquire(StreamLock(s))] + StandbyBody(s, online, Configure)
      + (if frames then Guarded(FramesLock(s)) else []) + [Release(Hardware)]
  }

  datatype Call =
    | Transfer(s: Stream, entry: Entry, fdUses: nat, frameUses: nat, failure: Option<Standby>)  // write() and read()
    | GoStandby(s: Stream, sb: Standby)
    | Flush(out: nat)
    | Route(routing: Option<Routing>)             // doRouting(), setMode() and all that only takes the hardware lock
    | OpenOutput(opening: Option<Opening>)        // None if there is an output already
    | CloseOutput(closed: Option<(nat, Standby)>)
    | OpenInput(id: nat, failedInput: Option<Standby>)
    | CloseInput(closedInput: Option<(nat, Standby)>)
    | FramesLost(s: Stream)

  /** A new output's init() gets as far as setNumBufs() or not; one that cannot be set up is deleted. */
  datatype Opening = Opening(out: nat, setNumBufs: bool, failed: Option<Option<Standby>>)

  function Open(o: Opening): Program {
    (if o.setNumBufs then Guarded(FdLock(Output(o.out))) else [])
    + (if o.failed.Some? then Delete(Output(o.out), o.failed.value) else [])
  }

  /** The part of an input's set() that holds its lock. */
  function SetUp(s: Stream): Program { [Acquire(StreamLock(s))] + [Touch(s, Configure)] + [Release(StreamLock(s))] }

  /** A stream is deleted with the hardware lock given up meanwhile. One that never learned its hardware takes
      no lock in standby(). */
  function Delete(s: Stream, sb: Option<Standby>): Program {
    [Release(Hardware)] + (if sb.Some? then DoStandby(s, sb.value) else [])
    + (if s.Output? then Guarded(FdLock(s)) else []) + [Acquire(Hardware)]
  }

  function Code(c: Call): Program {
    match c
    case Transfer(s, entry, fdUses, frameUses, failure) =>
      Enter(s, entry) + [Touch(s, MoveData)]
      + Repeat(Guarded(FdLock(s)), fdUses) + Repeat(Guarded(FramesLock(s)), frameUses)
      + [Release(StreamLock(s))] + (if failure.Some? then DoStandby(s, failure.value) else [])
    case GoStandby(s, sb) => DoStandby(s, sb)
    case Flush(out) => Guarded(FdLock(Output(out)))
    case Route(routing) =>
      [Acquire(Hardware)] + (if routing.Some? then DoRouting_l(routing.value) else []) + [Release(Hardware)]
    case OpenOutput(opening) =>
      [Acquire(Hardware)] + (if opening.Some? then Open(opening.value) else []) + [Release(Hardware)]
    case CloseOutput(closed) =>
      [Acquire(Hardware)] + (if closed.Some? then Delete(Output(closed.value.0), Some(closed.value.1)) else [])
      + [Release(Hardware)]
    case OpenInput(id, failed) =>
      [Acquire(Hardware)] + SetUp(Input(id))
      + (if failed.Some? then Delete(Input(id), failed) else []) + [Release(Hardware)]
    case CloseInput(closed) =>
      [Acquire(Hardware)] + (if closed.Some? then Delete(Input(closed.value.0), Some(closed.value.1)) else [])
      + [Release(Hardware)]
    case FramesLost(s) => Guarded(FramesLock(s))
  }

  // ----- the order in which locks may be awaited

  /** May a thread that holds `held` wait for x? In particular a second stream lock is only awaited
      under the hardware lock, and a second descriptor lock only after an input's, under it too. */
  ghost predicate MayAwait(x: Lock, held: set<Lock>) {
    match x
    case Hardware => held == {}
    case StreamLock(_) => (Hardware in held || held == {}) && forall y :: y in held ==> y.Hardware? || y.StreamLock?
    case FdLock(s) => forall y :: y in held ==>
      !y.FramesLock? && (y.FdLock? ==> y.stream.Input? && s.Output? && Hardware in held)
    case FramesLock(_) => forall y :: y in held ==> !y.FramesLock?
  }

  predicate ChangesState(what: Use) { what.SetDriver? || what.Configure? || what.GoIdle? || what.SwitchPath? }

  /** May a thread that holds `held` do this to the stream? It needs the locks of all parts, and to change a
      stream's state the hardware lock. */
  ghost predicate MayTouch(s: Stream, what: Use, held: set<Lock>) {
    (forall p :: p in PartsOf(s, what) ==> Guard(p) in held) && (ChangesState(what) ==> Hardware in held)
  }

  datatype Position = Position(held: set<Lock>, locked: set<Stream>)

  /** Following the order, a thread at `at` gets to the end of p: holding what, and with which
      mLocked flags set? None if it would break the order, or read a flag without the hardware lock. */
  ghost function Exec(p: Program, at: Position): Option<Position>
    decreases |p|, 0
  {
    if p == [] then Some(at)
    else
      match p[0]
      case Acquire(x) => Take(p[1..], at, x)
      case Release(x) => Drop(p[1..], at, x)
      case SetLocked(s, on) =>
        if Hardware in at.held && StreamLock(s) in at.held
        then Exec(p[1..], at.(locked := if on then at.locked + {s} else at.locked - {s})) else None
      case LockUnlessLocked(s) =>
        if Hardware !in at.held then None
        else if s in at.locked then Exec(p[1..], at) else Take(p[1..], at, StreamLock(s))
      case UnlockUnlessLocked(s) =>
        if Hardware !in at.held then None
        else if s in at.locked then Exec(p[1..], at) else Drop(p[1..], at, StreamLock(s))
      case Touch(s, what) => if MayTouch(s, what, at.held) then Exec(p[1..], at) else None
  }

  ghost function Take(rest: Program, at: Position, x: Lock): Option<Position>
    decreases |rest|, 1
  {
    if x !in at.held && MayAwait(x, at.held) then Exec(rest, at.(held := at.held + {x})) else None
  }

  /** The flags are down, and stay with their stream's lock, when locks are given up. */
  ghost function Drop(rest: Program, at: Position, x: Lock): Option<Position>
    decreases |rest|, 1
  {
    if x in at.held && (x.Hardware? ==> at.locked == {}) && (x.StreamLock? ==> x.stream !in at.locked)
    then Exec(rest, at.(held := at.held - {x})) else None
  }

  /** What a thread that keeps to the order knows about its next lock operation. */
  lemma ExecHead(p: Program, at: Position)
    requires p != [] && Exec(p, at).Some?
    ensures match p[0]
      case Acquire(x) => x !in at.held && MayAwait(x, at.held)
      case Release(x) => x in at.held && (x.Hardware? ==> at.locked == {}) && (x.StreamLock? ==> x.stream !in at.locked)
      case SetLocked(s, _) => Hardware in at.held && StreamLock(s) in at.held
      case LockUnlessLocked(s) => Hardware in at.held
      case UnlockUnlessLocked(s) => Hardware in at.held
      case Touch(s, what) => MayTouch(s, what, at.held)
  {
    match p[0]
    case Acquire(x) => assert Take(p[1..], at, x).Some?;
    case Release(x) => assert Drop(p[1..], at, x).Some?;
    case _ =>
  }

  lemma {:induction false} ExecConcat(p: Program, q: Program, at: Position)
    ensures Exec(p + q, at) == if Exec(p, at).Some? then Exec(q, Exec(p, at).value) else None
    decreases |p|
  {
    if p == [] {
      assert p + q == q;
    } else {
      assert (p + q)[1..] == p[1..] + q;
      match p[0]
      case Acquire(x) => ExecConcat(p[1..], q, at.(held := at.held + {x}));
      case Release(x) => ExecConcat(p[1..], q, at.(held := at.held - {x}));
      case SetLocked(s, on) => ExecConcat(p[1..], q, at.(locked := if on then at.locked + {s} else at.locked - {s}));
      case LockUnlessLocked(s) =>
        ExecConcat(p[1..], q, if s in at.locked then at else at.(held := at.held + {StreamLock(s)}));
      case UnlockUnlessLocked(s) =>
        ExecConcat(p[1..], q, if s in at.locked then at else at.(held := at.held - {StreamLock(s)}));
      case Touch(s, what) => ExecConcat(p[1..], q, at);
    }
  }

  // ----- every program keeps to the order, and leaves no lock behind

  ghost const IDLE: Position := Position({}, {})

  lemma {:induction false} RepeatNeutral(p: Program, n: nat, at: Position)
    requires Exec(p, at) == Some(at)
    ensures Exec(Repeat(p, n), at) == Some(at)
  {
    if n != 0 {
      RepeatNeutral(p, n - 1, at);
      ExecConcat(p, Repeat(p, n - 1), at);
    }
  }

  lemma One(i: Instr, at: Position)
    ensures Exec([i], at) ==
      match i
      case Acquire(x) => if x !in at.held && MayAwait(x, at.held) then Some(at.(held := at.held + {x})) else None
      case Release(x) =>
        if x in at.held && (x.Hardware? ==> at.locked == {}) && (x.StreamLock? ==> x.stream !in at.locked)
        then Some(at.(held := at.held - {x})) else None
      case SetLocked(s, on) =>
        if Hardware in at.held && StreamLock(s) in at.held
        then Some(at.(locked := if on then at.locked + {s} else at.locked - {s})) else None
      case LockUnlessLocked(s) =>
        if Hardware !in at.held then None else if s in at.locked then Some(at) else Exec([Acquire(StreamLock(s))], at)
      case UnlockUnlessLocked(s) =>
        if Hardware !in at.held then None else if s in at.locked then Some(at) else Exec([Release(StreamLock(s))], at)
      case Touch(s, what) => if MayTouch(s, what, at.held) then Some(at) else None
  {
    assert [i][1..] == [] && forall a :: Exec([], a) == Some(a);
    match i
    case Acquire(x) => assert Exec([i], at) == Take([], at, x);
    case Release(x) => assert Exec([i], at) == Drop([], at, x);
    case SetLocked(s, on) =>
    case LockUnlessLocked(s) => assert [Acquire(StreamLock(s))][1..] == [];
    case UnlockUnlessLocked(s) => assert [Release(StreamLock(s))][1..] == [];
    case Touch(s, what) =>
  }

  lemma GuardedNeutral(x: Lock, at: Position)
    requires (x.FdLock? || x.FramesLock?) && x !in at.held && MayAwait(x, at.held)
    ensures Exec(Guarded(x), at) == Some(at)
  {
    GuardedTouch(x, x.stream, if x.FdLock? then UseDescriptor else CountFrames, at);
  }

  /** Where doRouting_l() may be called: under the hardware lock, with the flag of every
      stream whose lock is held, and no descriptor. */
  ghost predicate MayRoute(at: Position) {
    && Hardware in at.held
    && (forall y :: y in at.held ==> y.Hardware? || (y.StreamLock? && y.stream in at.locked))
    && forall s :: s in at.locked ==> StreamLock(s) in at.held
  }

  /** A lock taken, something done to a stream, and the lock given back. */
  lemma GuardedTouch(x: Lock, s: Stream, what: Use, at: Position)
    requires x !in at.held && MayAwait(x, at.held) && !x.Hardware? && (x.StreamLock? ==> x.stream !in at.locked)
    requires MayTouch(s, what, at.held + {x})
    ensures Exec([Acquire(x)] + [Touch(s, what)] + [Release(x)], at) == Some(at)
  {
    var at1 := at.(held := at.held + {x});
    One(Acquire(x), at);
    One(Touch(s, what), at1);
    One(Release(x), at1);
    ExecConcat([Acquire(x)], [Touch(s, what)], at);
    ExecConcat([Acquire(x)] + [Touch(s, what)], [Release(x)], at);
    assert at1.held - {x} == at.held;
  }

  /** What is held while setDriver_l() is called and the path is switched. */
  ghost predicate BothLocked(out: nat, input: Option<nat>, at: Position) {
    && Hardware in at.held && (forall y :: y in at.held ==> y.Hardware? || y.StreamLock?)
    && StreamLock(Output(out)) in at.held && (input.Some? ==> StreamLock(Input(input.value)) in at.held)
  }

  lemma SwitchNeutral(out: nat, input: Option<nat>, at: Position)
    requires BothLocked(out, input, at)
    ensures Exec(SwitchBluetooth(out, input), at) == Some(at)
  {
    var s, fd := Output(out), FdLock(Output(out));
    if input.None? {
      GuardedTouch(fd, s, SwitchPath(None), at);
    } else {
      var x, what := FdLock(Input(input.value)), SwitchPath(Some(Input(input.value)));
      var at1 := at.(held := at.held + {x});
      var switch := [Acquire(fd)] + [Touch(s, what)] + [Release(fd)];
      One(Acquire(x), at);
      GuardedTouch(fd, s, what, at1);
      One(Release(x), at1);
      ExecConcat([Acquire(x)], switch, at);
      ExecConcat([Acquire(x)] + switch, [Release(x)], at);
      assert at1.held - {x} == at.held;
    }
  }

  lemma MiddleNeutral(out: nat, input: Option<nat>, btChange: bool, at: Position)
    requires BothLocked(out, input, at)
    ensures Exec(Middle(out, input, btChange), at) == Some(at)
  {
    var set2 := if input.Some? then [Touch(Input(input.value), SetDriver)] else [];
    One(Touch(Output(out), SetDriver), at);
    if input.Some? { One(Touch(Input(input.value), SetDriver), at); }
    ExecConcat([Touch(Output(out), SetDriver)], set2, at);
    SwitchNeutral(out, input, at);
    ExecConcat(SetDrivers(out, input), if btChange then SwitchBluetooth(out, input) else [], at);
  }

  /** Lock unless locked, neutral p, unlock unless locked: neutral. */
  lemma BracketNeutral(s: Stream, p: Program, at: Position)
    requires Hardware in at.held && (forall y :: y in at.held ==> y.Hardware? || y.StreamLock?)
    requires StreamLock(s) in at.held ==> s in at.locked
    requires s !in at.locked ==>
      Exec(p, at.(held := at.held + {StreamLock(s)})) == Some(at.(held := at.held + {StreamLock(s)}))
    requires s in at.locked ==> Exec(p, at) == Some(at)
    ensures Exec(Bracketed(s, p), at) == Some(at)
  {
    var x := StreamLock(s);
    var at1 := if s in at.locked then at else at.(held := at.held + {x});
    One(LockUnlessLocked(s), at);
    One(Acquire(x), at);
    One(UnlockUnlessLocked(s), at1);
    One(Release(x), at1);
    ExecConcat([LockUnlessLocked(s)], p, at);
    ExecConcat([LockUnlessLocked(s)] + p, [UnlockUnlessLocked(s)], at);
    assert s !in at.locked ==> at1.held - {x} == at.held;
  }

  lemma InnerNeutral(out: nat, input: Option<nat>, btChange: bool, at: Position)
    requires Hardware in at.held && (forall y :: y in at.held ==> y.Hardware? || y.StreamLock?)
    requires StreamLock(Output(out)) in at.held <==> Output(out) in at.locked
    requires input.Some? ==> StreamLock(Input(input.value)) in at.held
    ensures Exec(Bracketed(Output(out), Middle(out, input, btChange)), at) == Some(at)
  {
    var s := Output(out);
    MiddleNeutral(out, input, btChange, if s in at.locked then at else at.(held := at.held + {StreamLock(s)}));
    BracketNeutral(s, Middle(out, input, btChange), at);
  }

  /** doRouting_l() gives its caller back exactly the locks and flags it came with, and holds what MayTouch asks
      for wherever it changes a stream. */
  lemma RouteNeutral(r: Routing, at: Position)
    requires MayRoute(at)
    ensures Exec(DoRouting_l(r), at) == Some(at)
  {
    match r
    case NoOutput =>
    case Routing(out, None, btChange) => InnerNeutral(out, None, btChange, at);
    case Routing(out, Some(id), btChange) =>
      var s := Input(id);
      InnerNeutral(out, Some(id), btChange, if s in at.locked then at else at.(held := at.held + {StreamLock(s)}));
      BracketNeutral(s, Bracketed(Output(out), Middle(out, Some(id), btChange)), at);
  }

  /** doRouting_l() sets the drivers of the output and of an active input, and switches the path when
      Bluetooth changes. */
  lemma RouteTouches(out: nat, input: Option<nat>, btChange: bool)
    ensures var p := DoRouting_l(Routing(out, input, btChange));
      && Touch(Output(out), SetDriver) in p
      && (input.Some? ==> Touch(Input(input.value), SetDriver) in p)
      && (btChange ==> input.None? ==> Touch(Output(out), SwitchPath(None)) in p)
      && (btChange ==> input.Some? ==> Touch(Output(out), SwitchPath(Some(Input(input.value)))) in p)
  {
    var middle := Middle(out, input, btChange);
    assert middle[0] == Touch(Output(out), SetDriver);
    assert input.Some? ==> middle[1] == Touch(Input(input.value), SetDriver);
    assert forall i :: i in middle ==> i in DoRouting_l(Routing(out, input, btChange));
  }

  /** Both streams' locks are held when the descriptors are locked for a change of path. */
  lemma SwitchUnderBoth(out: nat, input: Option<nat>, at: Position)
    requires MayRoute(at)
    ensures var locks := if input.Some? then [LockUnlessLocked(Input(input.value))] else [];
      var before := locks + [LockUnlessLocked(Output(out))] + SetDrivers(out, input);
      && before + SwitchBluetooth(out, input) <= DoRouting_l(Routing(out, input, true))
      && Exec(before, at).Some? && BothLocked(out, input, Exec(before, at).value)
  {
    var locks := if input.Some? then [LockUnlessLocked(Input(input.value))] else [];
    var s := Output(out);
    var at1 := at;
    if input.Some? {
      var i := Input(input.value);
      One(LockUnlessLocked(i), at);
      One(Acquire(StreamLock(i)), at);
      at1 := if i in at.locked then at else at.(held := at.held + {StreamLock(i)});
    }
    var at2 := if s in at.locked then at1 else at1.(held := at1.held + {StreamLock(s)});
    One(LockUnlessLocked(s), at1);
    One(Acquire(StreamLock(s)), at1);
    ExecConcat(locks, [LockUnlessLocked(s)], at);
    MiddleNeutral(out, input, false, at2);
    assert Middle(out, input, false) == SetDrivers(out, input);
    ExecConcat(locks + [LockUnlessLocked(s)], SetDrivers(out, input), at);
  }

  // where a method of s holds its stream's lock, with and without the hardware lock
  ghost function Both(s: Stream): Position { Position({Hardware, StreamLock(s)}, {}) }
  ghost function Own(s: Stream): Position { Position({StreamLock(s)}, {}) }

  lemma {:induction false} FlushesNeutral(outs: seq<nat>, s: Stream)
    ensures Exec(Flushes(outs), Both(s)) == Some(Both(s))
  {
    if outs != [] {
      GuardedNeutral(FdLock(Output(outs[0])), Both(s));
      FlushesNeutral(outs[1..], s);
      ExecConcat(Guarded(FdLock(Output(outs[0]))), Flushes(outs[1..]), Both(s));
    }
  }

  lemma RouteLockedNeutral(s: Stream, r: Routing)
    ensures Exec(RouteLocked(s, r), Both(s)) == Some(Both(s))
  {
    var at := Both(s).(locked := {s});
    One(SetLocked(s, true), Both(s));
    RouteNeutral(r, at);
    One(SetLocked(s, false), at);
    ExecConcat([SetLocked(s, true)], DoRouting_l(r), Both(s));
    ExecConcat([SetLocked(s, true)] + DoRouting_l(r), [SetLocked(s, false)], Both(s));
    assert {} + {s} == {s} && {s} - {s} == {};
  }

  lemma StandbyNeutral(s: Stream, sb: Standby, what: Use)
    requires what.Configure? || what.GoIdle?
    ensures Exec(StandbyBody(s, sb, what), Both(s)) == Some(Both(s))
  {
    var rest := match sb
      case AlreadyIdle => []
      case Standby(routing, flushes) =>
        (if routing.Some? then RouteLocked(s, routing.value) else []) + Flushes(flushes);
    assert Exec(rest, Both(s)) == Some(Both(s)) by {
      match sb
      case AlreadyIdle =>
      case Standby(routing, flushes) =>
        FlushesNeutral(flushes, s);
        if routing.Some? {
          RouteLockedNeutral(s, routing.value);
          ExecConcat(RouteLocked(s, routing.value), Flushes(flushes), Both(s));
        } else {
          assert [] + Flushes(flushes) == Flushes(flushes);
        }
    }
    One(Touch(s, what), Both(s));
    ExecConcat([Touch(s, what)], rest, Both(s));
  }

  lemma LockBoth(s: Stream)
    ensures Exec([Acquire(Hardware), Acquire(StreamLock(s))], IDLE) == Some(Both(s))
    ensures Exec([Release(StreamLock(s)), Release(Hardware)], Both(s)) == Some(IDLE)
  {
    var h := Position({Hardware}, {});
    var p, q := [Acquire(Hardware), Acquire(StreamLock(s))], [Release(StreamLock(s)), Release(Hardware)];
    One(Acquire(StreamLock(s)), h);
    One(Release(Hardware), h);
    assert p[1..] == [Acquire(StreamLock(s))] && q[1..] == [Release(Hardware)];
    assert {Hardware} + {StreamLock(s)} == {Hardware, StreamLock(s)} && {} + {Hardware} == {Hardware};
    assert {Hardware, StreamLock(s)} - {StreamLock(s)} == {Hardware} && {Hardware} - {Hardware} == {};
  }

  lemma DoStandbySafe(s: Stream, sb: Standby)
    ensures Exec(DoStandby(s, sb), IDLE) == Some(IDLE)
  {
    var p, q := [Acquire(Hardware), Acquire(StreamLock(s))], [Release(StreamLock(s)), Release(Hardware)];
    LockBoth(s);
    StandbyNeutral(s, sb, GoIdle);
    ExecConcat(p, StandbyBody(s, sb, GoIdle), IDLE);
    ExecConcat(p + StandbyBody(s, sb, GoIdle), q, IDLE);
  }

  lemma HardwareOnly()
    ensures Exec([Acquire(Hardware)], IDLE) == Some(Position({Hardware}, {}))
    ensures Exec([Release(Hardware)], Position({Hardware}, {})) == Some(IDLE)
  {
    One(Acquire(Hardware), IDLE);
    One(Release(Hardware), Position({Hardware}, {}));
    assert {Hardware} - {Hardware} == {} && {} + {Hardware} == {Hardware};
  }

  lemma EnterSafe(s: Stream, e: Entry)
    ensures Exec(Enter(s, e), IDLE) == Some(Own(s))
  {
    One(Acquire(StreamLock(s)), IDLE);
    assert {} + {StreamLock(s)} == {StreamLock(s)};
    match e
    case Configured =>
    case Rechecked =>
      HardwareOnly();
      assert [Acquire(Hardware), Release(Hardware), Acquire(StreamLock(s))] ==
        [Acquire(Hardware)] + [Release(Hardware)] + [Acquire(StreamLock(s))];
      ExecConcat([Acquire(Hardware)], [Release(Hardware)], IDLE);
      ExecConcat([Acquire(Hardware)] + [Release(Hardware)], [Acquire(StreamLock(s))], IDLE);
    case Online(online, frames) =>
      var p := [Acquire(Hardware), Acquire(StreamLock(s))] + StandbyBody(s, online, Configure);
      var f := if frames then Guarded(FramesLock(s)) else [];
      LockBoth(s);
      StandbyNeutral(s, online, Configure);
      ExecConcat([Acquire(Hardware), Acquire(StreamLock(s))], StandbyBody(s, online, Configure), IDLE);
      GuardedNeutral(FramesLock(s), Both(s));
      ExecConcat(p, f, IDLE);
      One(Release(Hardware), Both(s));
      ExecConcat(p + f, [Release(Hardware)], IDLE);
      assert {Hardware, StreamLock(s)} - {Hardware} == {StreamLock(s)};
  }

  lemma TransferSafe(s: Stream, entry: Entry, fdUses: nat, frameUses: nat, failure: Option<Standby>)
    ensures Exec(Code(Transfer(s, entry, fdUses, frameUses, failure)), IDLE) == Some(IDLE)
  {
    var fds, frames := Repeat(Guarded(FdLock(s)), fdUses), Repeat(Guarded(FramesLock(s)), frameUses);
    var last := if failure.Some? then DoStandby(s, failure.value) else [];
    var head := Enter(s, entry) + [Touch(s, MoveData)];
    EnterSafe(s, entry);
    One(Touch(s, MoveData), Own(s));
    ExecConcat(Enter(s, entry), [Touch(s, MoveData)], IDLE);
    GuardedNeutral(FdLock(s), Own(s));
    RepeatNeutral(Guarded(FdLock(s)), fdUses, Own(s));
    GuardedNeutral(FramesLock(s), Own(s));
    RepeatNeutral(Guarded(FramesLock(s)), frameUses, Own(s));
    ExecConcat(head, fds, IDLE);
    ExecConcat(head + fds, frames, IDLE);
    One(Release(StreamLock(s)), Own(s));
    assert {StreamLock(s)} - {StreamLock(s)} == {};
    ExecConcat(head + fds + frames, [Release(StreamLock(s))], IDLE);
    if failure.Some? { DoStandbySafe(s, failure.value); }
    ExecConcat(head + fds + frames + [Release(StreamLock(s))], last, IDLE);
  }

  lemma DeleteSafe(s: Stream, sb: Option<Standby>)
    ensures Exec(Delete(s, sb), Position({Hardware}, {})) == Some(Position({Hardware}, {}))
  {
    var h, fd := Position({Hardware}, {}), if s.Output? then Guarded(FdLock(s)) else [];
    HardwareOnly();
    var standby := if sb.Some? then DoStandby(s, sb.value) else [];
    if sb.Some? { DoStandbySafe(s, sb.value); }
    GuardedNeutral(FdLock(s), IDLE);
    ExecConcat([Release(Hardware)], standby, h);
    ExecConcat([Release(Hardware)] + standby, fd, h);
    ExecConcat([Release(Hardware)] + standby + fd, [Acquire(Hardware)], h);
  }

  lemma UnderHardware(p: Program)
    requires Exec(p, Position({Hardware}, {})) == Some(Position({Hardware}, {}))
    ensures Exec([Acquire(Hardware)] + p + [Release(Hardware)], IDLE) == Some(IDLE)
  {
    HardwareOnly();
    ExecConcat([Acquire(Hardware)], p, IDLE);
    ExecConcat([Acquire(Hardware)] + p, [Release(Hardware)], IDLE);
  }

  lemma RouteSafe(routing: Option<Routing>)
    ensures Exec(Code(Route(routing)), IDLE) == Some(IDLE)
  {
    if routing.Some? { RouteNeutral(routing.value, Position({Hardware}, {})); }
    UnderHardware(if routing.Some? then DoRouting_l(routing.value) else []);
  }

  lemma DeleteCallSafe(s: Stream, sb: Option<Standby>)
    ensures Exec([Acquire(Hardware)] + Delete(s, sb) + [Release(Hardware)], IDLE) == Some(IDLE)
  {
    DeleteSafe(s, sb);
    UnderHardware(Delete(s, sb));
  }

  lemma OpenSafe(o: Opening)
    ensures Exec([Acquire(Hardware)] + Open(o) + [Release(Hardware)], IDLE) == Some(IDLE)
  {
    var h, fd := Position({Hardware}, {}), if o.setNumBufs then Guarded(FdLock(Output(o.out))) else [];
    GuardedNeutral(FdLock(Output(o.out)), h);
    if o.failed.Some? { DeleteSafe(Output(o.out), o.failed.value); }
    ExecConcat(fd, if o.failed.Some? then Delete(Output(o.out), o.failed.value) else [], h);
    UnderHardware(Open(o));
  }

  lemma OpenInputSafe(id: nat, failedInput: Option<Standby>)
    ensures Exec(Code(OpenInput(id, failedInput)), IDLE) == Some(IDLE)
  {
    var h := Position({Hardware}, {});
    var set', del := SetUp(Input(id)), if failedInput.Some? then Delete(Input(id), failedInput) else [];
    GuardedTouch(StreamLock(Input(id)), Input(id), Configure, h);
    if failedInput.Some? { DeleteSafe(Input(id), failedInput); }
    HardwareOnly();
    ExecConcat([Acquire(Hardware)], set', IDLE);
    ExecConcat([Acquire(Hardware)] + set', del, IDLE);
    ExecConcat([Acquire(Hardware)] + set' + del, [Release(Hardware)], IDLE);
  }

  /** What each call does to its stream, and that it does the routing it is said to do. */
  lemma CodeTouches(c: Call)
    ensures match c
      case Transfer(s, entry, fdUses, frameUses, failure) =>
        && Touch(s, MoveData) in Code(c)
        && (fdUses > 0 ==> Touch(s, UseDescriptor) in Code(c))
        && (frameUses > 0 ==> Touch(s, CountFrames) in Code(c))
        && (entry.Online? ==> Touch(s, Configure) in Code(c))
        && (entry.Online? && entry.online.Standby? && entry.online.routing.Some? ==>
              forall i :: i in DoRouting_l(entry.online.routing.value) ==> i in Code(c))
        && (failure.Some? ==> Touch(s, GoIdle) in Code(c))
      case GoStandby(s, sb) =>
        && Touch(s, GoIdle) in Code(c)
        && (sb.Standby? && sb.routing.Some? ==> forall i :: i in DoRouting_l(sb.routing.value) ==> i in Code(c))
      case Route(routing) => routing.Some? ==> forall i :: i in DoRouting_l(routing.value) ==> i in Code(c)
      case Flush(out) => Touch(Output(out), UseDescriptor) in Code(c)
      case FramesLost(s) => Touch(s, CountFrames) in Code(c)
      case OpenInput(id, _) => Touch(Input(id), Configure) in Code(c)
      case CloseOutput(closed) => closed.Some? ==> Touch(Output(closed.value.0), GoIdle) in Code(c)
      case CloseInput(closed) => closed.Some? ==> Touch(Input(closed.value.0), GoIdle) in Code(c)
      case _ => true
  {
    if c.Transfer? {
      assert c.fdUses > 0 ==> Guarded(FdLock(c.s)) <= Repeat(Guarded(FdLock(c.s)), c.fdUses);
      assert c.frameUses > 0 ==> Guarded(FramesLock(c.s)) <= Repeat(Guarded(FramesLock(c.s)), c.frameUses);
      assert Guarded(FdLock(c.s))[1] == Touch(c.s, UseDescriptor);
      assert Guarded(FramesLock(c.s))[1] == Touch(c.s, CountFrames);
    }
  }

  /** Every call keeps to the order, and ends without locks. */
  lemma CodeSafe(c: Call)
    ensures Exec(Code(c), IDLE) == Some(IDLE)
  {
    match c
    case Transfer(s, entry, fdUses, frameUses, failure) => TransferSafe(s, entry, fdUses, frameUses, failure);
    case GoStandby(s, sb) => DoStandbySafe(s, sb);
    case Flush(out) => GuardedNeutral(FdLock(Output(out)), IDLE);
    case Route(routing) => RouteSafe(routing);
    case OpenOutput(opening) =>
      if opening.Some? { OpenSafe(opening.value); } else { UnderHardware([]); }
    case CloseOutput(closed) =>
      if closed.Some? { DeleteCallSafe(Output(closed.value.0), Some(closed.value.1)); } else { UnderHardware([]); }
    case OpenInput(id, failedInput) => OpenInputSafe(id, failedInput);
    case CloseInput(closedInput) =>
      if closedInput.Some? {
        DeleteCallSafe(Input(closedInput.value.0), Some(closedInput.value.1));
      } else {
        UnderHardware([]);
      }
    case FramesLost(s) => GuardedNeutral(FramesLock(s), IDLE);
  }
}
