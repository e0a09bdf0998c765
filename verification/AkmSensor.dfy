/** The compass driver: it drains the event ring into sensor events, and can stop
    in the middle of a synchronisation event and resume there. */
module AkmSensor {
  import opened InputEventReader

  // linux/input.h
  const EV_SYN := 0
  const EV_REL := 2

  // AkmSensor's sensors, which are also its bits in mPendingMask and mEnabled
  const ACCELEROMETER := 0
  const MAGNETIC_FIELD := 1
  const ORIENTATION := 2
  const NUM_SENSORS := 3

  /** A sensor event; the readings are the device's raw units. */
  datatype SensorEvent = SensorEvent(sensor: nat, x: int, y: int, z: int, status: int, timestamp: int)

  /** mPendingMask as the set of its bits, and mPendingEvents. */
  datatype Pending = Pending(mask: set<nat>, events: seq<SensorEvent>)

  ghost predicate Proper(p: Pending) {
    |p.events| == NUM_SENSORS && forall j :: j in p.mask ==> j < NUM_SENSORS
  }

  // ----- the meaning of a stream of input events

  datatype Axis = X | Y | Z | Status

  /** Which pending event, and which field of it, a REL_ code sets. */
  function Target(code: int): (t: (int, Axis))
    ensures -1 <= t.0 < NUM_SENSORS && (t.0 >= 0 <==> 0 <= code <= 9)
  {
    match code
    case 0 => (ACCELEROMETER, X)
    case 1 => (ACCELEROMETER, Y)
    case 2 => (ACCELEROMETER, Z)
    case 3 => (ORIENTATION, X)
    case 4 => (ORIENTATION, Y)
    case 5 => (ORIENTATION, Z)
    case 6 => (ORIENTATION, Status)
    case 7 => (MAGNETIC_FIELD, X)
    case 8 => (MAGNETIC_FIELD, Y)
    case 9 => (MAGNETIC_FIELD, Z)
    case _ => (-1, X)
  }

  function Reading(e: SensorEvent, axis: Axis): int {
    match axis
    case X => e.x
    case Y => e.y
    case Z => e.z
    case Status => e.status
  }

  /** One reading changes; the status is what its mask and its byte leave of the value. */
  function SetAxis(e: SensorEvent, axis: Axis, value: int): (r: SensorEvent)
    ensures Reading(r, axis) == if axis.Status? then value % 0x8000 % 0x100 else value
    ensures forall a :: a != axis ==> Reading(r, a) == Reading(e, a)
    ensures r.sensor == e.sensor && r.timestamp == e.timestamp
  {
    match axis
    case X => e.(x := value)
    case Y => e.(y := value)
    case Z => e.(z := value)
    case Status => e.(status := value % 0x8000 % 0x100)
  }

  /** processEvent: the event becomes pending; unknown codes change nothing. */
  function Process(p: Pending, code: int, value: int): (q: Pending)
    requires Proper(p)
    ensures Proper(q)
  {
    var (j, axis) := Target(code);
    if j < 0 then p else Pending(p.mask + {j}, p.events[j := SetAxis(p.events[j], axis, value)])
  }

  /** No two codes set the same reading. */
  lemma TargetsDiffer(a: int, b: int)
    requires 0 <= a < b <= 9
    ensures Target(a) != Target(b)
  {
  }

  function Nanos(e: InputEvent): int { e.sec * 1_000_000_000 + e.usec * 1000 }

  /** A pending event is stamped and leaves the mask. */
  function Stamp(p: Pending, j: nat, time: int): (q: Pending)
    requires Proper(p) && j < NUM_SENSORS
    ensures Proper(q)
  {
    Pending(p.mask - {j}, p.events[j := p.events[j].(timestamp := time)])
  }

  /** What a synchronisation event still has to report from sensor j on ... */
  function SyncOut(p: Pending, enabled: set<nat>, time: int, j: nat): seq<SensorEvent>
    requires Proper(p) && j <= NUM_SENSORS
    decreases NUM_SENSORS - j
  {
    if j == NUM_SENSORS then []
    else if j !in p.mask then SyncOut(p, enabled, time, j + 1)
    else
      (if j in enabled then [p.events[j].(timestamp := time)] else [])
      + SyncOut(Stamp(p, j, time), enabled, time, j + 1)
  }

  /** ... and what is pending after it. */
  function SyncEnd(p: Pending, time: int, j: nat): (q: Pending)
    requires Proper(p) && j <= NUM_SENSORS
    ensures Proper(q)
    decreases NUM_SENSORS - j
  {
    if j == NUM_SENSORS then p
    else SyncEnd(if j in p.mask then Stamp(p, j, time) else p, time, j + 1)
  }

  /** What one unlimited drain of the input events reports ... */
  function Out(p: Pending, enabled: set<nat>, events: seq<InputEvent>): seq<SensorEvent>
    requires Proper(p)
    decreases |events|
  {
    if events == [] then []
    else
      var e := events[0];
      (if e.kind == EV_SYN then SyncOut(p, enabled, Nanos(e), 0) else []) + Out(After(p, e), enabled, events[1..])
  }

  function After(p: Pending, e: InputEvent): (q: Pending)
    requires Proper(p)
    ensures Proper(q)
  {
    if e.kind == EV_REL then Process(p, e.code, e.value)
    else if e.kind == EV_SYN then SyncEnd(p, Nanos(e), 0)
    else p
  }

  /** ... and what it leaves pending. */
  function End(p: Pending, events: seq<InputEvent>): (q: Pending)
    requires Proper(p)
    ensures Proper(q)
    decreases |events|
  {
    if events == [] then p else End(After(p, events[0]), events[1..])
  }

  lemma {:induction false} OutConcat(p: Pending, enabled: set<nat>, a: seq<InputEvent>, b: seq<InputEvent>)
    requires Proper(p)
    ensures Out(p, enabled, a + b) == Out(p, enabled, a) + Out(End(p, a), enabled, b)
    ensures End(p, a + b) == End(End(p, a), b)
    decreases |a|
  {
    if a == [] {
      assert a + b == b;
    } else {
      assert (a + b)[1..] == a[1..] + b;
      OutConcat(After(p, a[0]), enabled, a[1..], b);
    }
  }

  lemma {:induction false} EmptyMaskSync(p: Pending, enabled: set<nat>, time: int, j: nat)
    requires Proper(p) && j <= NUM_SENSORS && (forall i :: i in p.mask ==> i < j)
    ensures SyncOut(p, enabled, time, j) == [] && SyncEnd(p, time, j) == p
    decreases NUM_SENSORS - j
  {
    if j < NUM_SENSORS { EmptyMaskSync(p, enabled, time, j + 1); }
  }

  /** A sync event resumed from the start goes on where it was interrupted: the
      sensors below j are no longer pending. */
  lemma {:induction false} SyncResumes(p: Pending, enabled: set<nat>, time: int, i: nat, j: nat)
    requires Proper(p) && i <= j <= NUM_SENSORS && (forall k :: k in p.mask ==> j <= k)
    ensures SyncOut(p, enabled, time, i) == SyncOut(p, enabled, time, j)
    ensures SyncEnd(p, time, i) == SyncEnd(p, time, j)
    decreases j - i
  {
    if i < j { SyncResumes(p, enabled, time, i + 1, j); }
  }

  /** One round of the reporting loop. */
  lemma SyncStep(p: Pending, enabled: set<nat>, time: int, j: nat, done: seq<SensorEvent>)
    requires Proper(p) && j < NUM_SENSORS
    ensures j !in p.mask ==>
      && SyncOut(p, enabled, time, j) == SyncOut(p, enabled, time, j + 1)
      && SyncEnd(p, time, j) == SyncEnd(p, time, j + 1)
    ensures j in p.mask ==>
      && done + SyncOut(p, enabled, time, j)
           == (if j in enabled then done + [Stamp(p, j, time).events[j]] else done)
           + SyncOut(Stamp(p, j, time), enabled, time, j + 1)
      && SyncEnd(p, time, j) == SyncEnd(Stamp(p, j, time), time, j + 1)
  {
  }

  /** What the first input event contributes. */
  lemma DrainStep(p: Pending, enabled: set<nat>, events: seq<InputEvent>)
    requires Proper(p) && events != [] && events[0].kind != EV_SYN
    ensures End(p, events) == End(After(p, events[0]), events[1..])
    ensures Out(p, enabled, events) == Out(After(p, events[0]), enabled, events[1..])
  {
  }

  lemma DrainSync(p: Pending, enabled: set<nat>, events: seq<InputEvent>)
    requires Proper(p) && events != [] && events[0].kind == EV_SYN
    ensures var time := Nanos(events[0]);
      && Out(p, enabled, events) == SyncOut(p, enabled, time, 0) + Out(SyncEnd(p, time, 0), enabled, events[1..])
      && End(p, events) == End(SyncEnd(p, time, 0), events[1..])
  {
  }

  lemma Joins(done: seq<SensorEvent>, now: seq<SensorEvent>, sync: seq<SensorEvent>, rest: seq<SensorEvent>)
    ensures (done + now) + (sync + rest) == done + ((now + sync) + rest)
  {
  }

  /** A sync event that was reported as `now` and left q pending can be visited again. */
  lemma SyncInterrupted(p: Pending, q: Pending, enabled: set<nat>, events: seq<InputEvent>,
      done: seq<SensorEvent>, now: seq<SensorEvent>)
    requires Proper(p) && Proper(q) && events != [] && events[0].kind == EV_SYN
    requires now + SyncOut(q, enabled, Nanos(events[0]), 0) == SyncOut(p, enabled, Nanos(events[0]), 0)
    requires SyncEnd(q, Nanos(events[0]), 0) == SyncEnd(p, Nanos(events[0]), 0)
    ensures End(q, events) == End(p, events)
    ensures (done + now) + Out(q, enabled, events) == done + Out(p, enabled, events)
    ensures q.mask == {} ==>
      Out(q, enabled, events) == Out(q, enabled, events[1..]) && End(q, events) == End(q, events[1..])
  {
    var time, rest := Nanos(events[0]), Out(SyncEnd(p, Nanos(events[0]), 0), enabled, events[1..]);
    DrainSync(p, enabled, events);
    DrainSync(q, enabled, events);
    Joins(done, now, SyncOut(q, enabled, time, 0), rest);
    if q.mask == {} {
      EmptyMaskSync(q, enabled, time, 0);
      assert [] + rest == rest;
    }
  }

  // ----- the same, by positions in the log

  /** The event is a reading of this axis of sensor j: 0 the accelerometer, 1 the magnetic field, 2 the orientation. */
  ghost predicate Sets(e: InputEvent, j: nat, axis: Axis) {
    && e.kind == 2
    && match (j, axis)
       case (0, X) => e.code == 0
       case (0, Y) => e.code == 1
       case (0, Z) => e.code == 2
       case (1, X) => e.code == 7
       case (1, Y) => e.code == 8
       case (1, Z) => e.code == 9
       case (2, X) => e.code == 3
       case (2, Y) => e.code == 4
       case (2, Z) => e.code == 5
       case (2, Status) => e.code == 6
       case _ => false
  }

  ghost predicate Concerns(e: InputEvent, j: nat) {
    Sets(e, j, X) || Sets(e, j, Y) || Sets(e, j, Z) || Sets(e, j, Status)
  }

  /** No synchronisation event from a on, before b. */
  ghost predicate NoSync(events: seq<InputEvent>, a: int, b: int)
    requires 0 <= a && b <= |events|
  {
    forall m :: a <= m < b ==> events[m].kind != 0
  }

  /** Sensor j has a reading since the last synchronisation event before i, or since the start, when it may
      have had one. */
  ghost predicate Due(p: Pending, events: seq<InputEvent>, i: nat, j: nat)
    requires i <= |events|
  {
    || (j in p.mask && NoSync(events, 0, i))
    || exists k :: 0 <= k < i && Concerns(events[k], j) && NoSync(events, k, i)
  }

  ghost function ValueOf(e: InputEvent, axis: Axis): int {
    if axis.Status? then e.value % 0x8000 % 0x100 else e.value
  }

  /** v is the last value before i of this axis. */
  ghost predicate IsReading(p: Pending, events: seq<InputEvent>, i: nat, j: nat, axis: Axis, v: int)
    requires Proper(p) && i <= |events| && j < NUM_SENSORS
  {
    || (v == Reading(p.events[j], axis) && forall m :: 0 <= m < i ==> !Sets(events[m], j, axis))
    || exists k :: IsLast(events, i, j, axis, k) && v == ValueOf(events[k], axis)
  }

  ghost predicate IsLast(events: seq<InputEvent>, i: nat, j: nat, axis: Axis, k: int)
    requires i <= |events|
  {
    0 <= k < i && Sets(events[k], j, axis) && forall m :: k < m < i ==> !Sets(events[m], j, axis)
  }

  /** r is what is reported of sensor j at position i: the last readings, and the time of the event there. */
  ghost predicate IsReport(p: Pending, events: seq<InputEvent>, i: nat, j: nat, r: SensorEvent)
    requires Proper(p) && i < |events| && j < NUM_SENSORS
  {
    && r.sensor == p.events[j].sensor
    && r.timestamp == events[i].sec * 1_000_000_000 + events[i].usec * 1000
    && forall axis :: IsReading(p, events, i, j, axis, Reading(r, axis))
  }

  /** At a synchronisation event, the enabled sensors that are due are reported, in their order. */
  ghost predicate Reports(p: Pending, enabled: set<nat>, events: seq<InputEvent>, i: nat, j: nat, out: seq<SensorEvent>)
    requires Proper(p) && i < |events| && j <= NUM_SENSORS
  {
    if events[i].kind != 0 || j == 0 then out == []
    else if j - 1 in enabled && Due(p, events, i, j - 1) then
      && out != [] && IsReport(p, events, i, j - 1, out[|out| - 1])
      && Reports(p, enabled, events, i, j - 1, out[..|out| - 1])
    else Reports(p, enabled, events, i, j - 1, out)
  }

  /** outs are the reports at the first n positions. */
  ghost predicate Explains(p: Pending, enabled: set<nat>, events: seq<InputEvent>, n: nat, outs: seq<seq<SensorEvent>>)
    requires Proper(p) && n <= |events|
  {
    |outs| == n && forall i :: 0 <= i < n ==> Reports(p, enabled, events, i, NUM_SENSORS, outs[i])
  }

  function Flat(outs: seq<seq<SensorEvent>>): seq<SensorEvent> {
    if outs == [] then [] else Flat(outs[..|outs| - 1]) + outs[|outs| - 1]
  }

  /** out is what is to be reported of the log, position by position. */
  ghost predicate Reported(p: Pending, enabled: set<nat>, events: seq<InputEvent>, out: seq<SensorEvent>)
    requires Proper(p)
  {
    exists outs :: Explains(p, enabled, events, |events|, outs) && out == Flat(outs)
  }

  /** q is how things stand after the first i events. */
  ghost predicate Stands(p: Pending, events: seq<InputEvent>, i: nat, q: Pending)
    requires Proper(p) && i <= |events|
  {
    Proper(q) && forall j :: 0 <= j < NUM_SENSORS ==> StandsAt(p, events, i, q, j)
  }

  ghost predicate StandsAt(p: Pending, events: seq<InputEvent>, i: nat, q: Pending, j: nat)
    requires Proper(p) && Proper(q) && i <= |events| && j < NUM_SENSORS
  {
    && (j in q.mask <==> Due(p, events, i, j))
    && q.events[j].sensor == p.events[j].sensor
    && forall axis :: IsReading(p, events, i, j, axis, Reading(q.events[j], axis))
  }

  lemma TargetSets(e: InputEvent, j: nat, axis: Axis)
    requires j < NUM_SENSORS
    ensures Sets(e, j, axis) <==> e.kind == EV_REL && Target(e.code) == (j, axis)
  {
  }

  /** A synchronisation event clears the mask, and no reading changes. */
  lemma SyncEndKeeps(p: Pending, time: int)
    requires Proper(p)
    ensures var q := SyncEnd(p, time, 0);
      && q.mask == {}
      && forall j :: 0 <= j < NUM_SENSORS ==> q.events[j].(timestamp := 0) == p.events[j].(timestamp := 0)
  {
    var p1 := if 0 in p.mask then Stamp(p, 0, time) else p;
    var p2 := if 1 in p1.mask then Stamp(p1, 1, time) else p1;
    var p3 := if 2 in p2.mask then Stamp(p2, 2, time) else p2;
    assert SyncEnd(p, time, 0) == SyncEnd(p1, time, 1) == SyncEnd(p2, time, 2) == SyncEnd(p3, time, 3) == p3;
    assert forall j :: j in p3.mask ==> j < 3 && j != 0 && j != 1 && j != 2;
  }

  lemma DueStep(p: Pending, events: seq<InputEvent>, i: nat, j: nat)
    requires i < |events|
    ensures Due(p, events, i + 1, j) <==> events[i].kind != 0 && (Due(p, events, i, j) || Concerns(events[i], j))
  {
    var e := events[i];
    if e.kind != 0 {
      assert NoSync(events, 0, i + 1) <==> NoSync(events, 0, i);
      forall k | 0 <= k < i ensures NoSync(events, k, i + 1) <==> NoSync(events, k, i) {}
      if Concerns(e, j) { assert NoSync(events, i, i + 1); }
    } else {
      forall k | 0 <= k < i + 1 && Concerns(events[k], j) ensures !NoSync(events, k, i + 1) {}
    }
  }

  lemma ReadingStep(p: Pending, events: seq<InputEvent>, i: nat, j: nat, axis: Axis, v: int)
    requires Proper(p) && i < |events| && j < NUM_SENSORS && IsReading(p, events, i, j, axis, v)
    ensures !Sets(events[i], j, axis) ==> IsReading(p, events, i + 1, j, axis, v)
    ensures Sets(events[i], j, axis) ==> IsReading(p, events, i + 1, j, axis, ValueOf(events[i], axis))
  {
    if Sets(events[i], j, axis) {
      assert IsLast(events, i + 1, j, axis, i);
    } else if k :| IsLast(events, i, j, axis, k) && v == ValueOf(events[k], axis) {
      assert IsLast(events, i + 1, j, axis, k);
    }
  }

  lemma StandsStep(p: Pending, events: seq<InputEvent>, i: nat, q: Pending, j: nat)
    requires Proper(p) && i < |events| && Stands(p, events, i, q) && j < NUM_SENSORS
    ensures StandsAt(p, events, i + 1, After(q, events[i]), j)
  {
    var e, r := events[i], After(q, events[i]);
    DueStep(p, events, i, j);
    TargetSets(e, j, X);
    TargetSets(e, j, Y);
    TargetSets(e, j, Z);
    TargetSets(e, j, Status);
    if e.kind == EV_SYN { SyncEndKeeps(q, Nanos(e)); }
    assert StandsAt(p, events, i, q, j);
    forall axis ensures IsReading(p, events, i + 1, j, axis, Reading(r.events[j], axis)) {
      ReadingStep(p, events, i, j, axis, Reading(q.events[j], axis));
      TargetSets(e, j, axis);
    }
  }

  lemma {:induction false} PrefixStands(p: Pending, events: seq<InputEvent>, i: nat)
    requires Proper(p) && i <= |events|
    ensures Stands(p, events, i, End(p, events[..i]))
    ensures i < |events| ==> End(p, events[..i + 1]) == After(End(p, events[..i]), events[i])
  {
    if i > 0 {
      PrefixStands(p, events, i - 1);
      forall j | 0 <= j < NUM_SENSORS ensures StandsAt(p, events, i, End(p, events[..i]), j) {
        StandsStep(p, events, i - 1, End(p, events[..i - 1]), j);
      }
    }
    if i < |events| {
      assert events[..i + 1] == events[..i] + [events[i]];
      OutConcat(p, {}, events[..i], [events[i]]);
    }
  }

  /** What a synchronisation event reports of sensor j. */
  function Part(q: Pending, enabled: set<nat>, time: int, j: nat): seq<SensorEvent>
    requires Proper(q) && j < NUM_SENSORS
  {
    if j in q.mask && j in enabled then [q.events[j].(timestamp := time)] else []
  }

  lemma SyncParts(q: Pending, enabled: set<nat>, time: int)
    requires Proper(q)
    ensures SyncOut(q, enabled, time, 0)
      == Part(q, enabled, time, 0) + Part(q, enabled, time, 1) + Part(q, enabled, time, 2)
  {
    var q1 := if 0 in q.mask then Stamp(q, 0, time) else q;
    var q2 := if 1 in q1.mask then Stamp(q1, 1, time) else q1;
    var q3 := if 2 in q2.mask then Stamp(q2, 2, time) else q2;
    assert SyncOut(q3, enabled, time, 3) == [];
    assert SyncOut(q2, enabled, time, 2) == Part(q, enabled, time, 2);
    assert SyncOut(q1, enabled, time, 1) == Part(q, enabled, time, 1) + Part(q, enabled, time, 2);
  }

  lemma PartReports(p: Pending, enabled: set<nat>, events: seq<InputEvent>, i: nat, q: Pending, j: nat,
      out: seq<SensorEvent>)
    requires Proper(p) && i < |events| && events[i].kind == 0 && Stands(p, events, i, q) && j < NUM_SENSORS
    requires Reports(p, enabled, events, i, j, out)
    ensures Reports(p, enabled, events, i, j + 1, out + Part(q, enabled, Nanos(events[i]), j))
  {
    var part := Part(q, enabled, Nanos(events[i]), j);
    assert StandsAt(p, events, i, q, j);
    if part == [] {
      assert out + part == out;
    } else {
      var r := part[0];
      assert (out + part)[..|out + part| - 1] == out;
      forall axis ensures IsReading(p, events, i, j, axis, Reading(r, axis)) {
        assert Reading(r, axis) == Reading(q.events[j], axis);
      }
    }
  }

  lemma SyncReports(p: Pending, enabled: set<nat>, events: seq<InputEvent>, i: nat, q: Pending)
    requires Proper(p) && i < |events| && Stands(p, events, i, q)
    ensures Reports(p, enabled, events, i, NUM_SENSORS,
      if events[i].kind == EV_SYN then SyncOut(q, enabled, Nanos(events[i]), 0) else [])
  {
    if events[i].kind == EV_SYN {
      var time := Nanos(events[i]);
      SyncParts(q, enabled, time);
      var a, b := Part(q, enabled, time, 0), Part(q, enabled, time, 1);
      PartReports(p, enabled, events, i, q, 0, []);
      assert [] + a == a;
      PartReports(p, enabled, events, i, q, 1, a);
      PartReports(p, enabled, events, i, q, 2, a + b);
    }
  }

  lemma {:induction false} PrefixReported(p: Pending, enabled: set<nat>, events: seq<InputEvent>, n: nat)
    returns (outs: seq<seq<SensorEvent>>)
    requires Proper(p) && n <= |events|
    ensures Explains(p, enabled, events, n, outs) && Flat(outs) == Out(p, enabled, events[..n])
  {
    if n == 0 {
      outs := [];
    } else {
      var init := PrefixReported(p, enabled, events, n - 1);
      var last := PositionReported(p, enabled, events, n - 1);
      outs := init + [last];
      assert outs[..n - 1] == init;
    }
  }

  lemma PositionReported(p: Pending, enabled: set<nat>, events: seq<InputEvent>, i: nat) returns (out: seq<SensorEvent>)
    requires Proper(p) && i < |events|
    ensures Reports(p, enabled, events, i, NUM_SENSORS, out)
    ensures Out(p, enabled, events[..i + 1]) == Out(p, enabled, events[..i]) + out
  {
    var e, q := events[i], End(p, events[..i]);
    PrefixStands(p, events, i);
    SyncReports(p, enabled, events, i, q);
    OutSnoc(p, enabled, events, i);
    out := if e.kind == EV_SYN then SyncOut(q, enabled, Nanos(e), 0) else [];
  }

  lemma OutSnoc(p: Pending, enabled: set<nat>, events: seq<InputEvent>, i: nat)
    requires Proper(p) && i < |events|
    ensures var e, q := events[i], End(p, events[..i]);
      Out(p, enabled, events[..i + 1])
        == Out(p, enabled, events[..i]) + (if e.kind == EV_SYN then SyncOut(q, enabled, Nanos(e), 0) else [])
  {
    var e, q := events[i], End(p, events[..i]);
    assert events[..i + 1] == events[..i] + [e];
    OutConcat(p, enabled, events[..i], [e]);
    assert Out(q, enabled, [e]) == (if e.kind == EV_SYN then SyncOut(q, enabled, Nanos(e), 0) else []) + [];
  }

  /** The drain reports exactly what the positions of the log say. */
  lemma OutIsReported(p: Pending, enabled: set<nat>, events: seq<InputEvent>)
    requires Proper(p)
    ensures Reported(p, enabled, events, Out(p, enabled, events))
  {
    var outs := PrefixReported(p, enabled, events, |events|);
    assert events[..|events|] == events;
  }

  lemma ReadingUnique(p: Pending, events: seq<InputEvent>, i: nat, j: nat, axis: Axis, v: int, w: int)
    requires Proper(p) && i <= |events| && j < NUM_SENSORS
    requires IsReading(p, events, i, j, axis, v) && IsReading(p, events, i, j, axis, w)
    ensures v == w
  {
  }

  lemma {:induction false} ReportsUnique(p: Pending, enabled: set<nat>, events: seq<InputEvent>, i: nat, j: nat,
      a: seq<SensorEvent>, b: seq<SensorEvent>)
    requires Proper(p) && i < |events| && j <= NUM_SENSORS
    requires Reports(p, enabled, events, i, j, a) && Reports(p, enabled, events, i, j, b)
    ensures a == b
  {
    if events[i].kind == 0 && j > 0 {
      if j - 1 in enabled && Due(p, events, i, j - 1) {
        var r, s := a[|a| - 1], b[|b| - 1];
        ReportsUnique(p, enabled, events, i, j - 1, a[..|a| - 1], b[..|b| - 1]);
        forall axis ensures Reading(r, axis) == Reading(s, axis) {
          ReadingUnique(p, events, i, j - 1, axis, Reading(r, axis), Reading(s, axis));
        }
        assert Reading(r, X) == Reading(s, X) && Reading(r, Y) == Reading(s, Y);
        assert Reading(r, Z) == Reading(s, Z) && Reading(r, Status) == Reading(s, Status);
        assert a == a[..|a| - 1] + [r] && b == b[..|b| - 1] + [s];
      } else {
        ReportsUnique(p, enabled, events, i, j - 1, a, b);
      }
    }
  }

  /** The positions of the log leave no choice. */
  lemma ReportedUnique(p: Pending, enabled: set<nat>, events: seq<InputEvent>, a: seq<SensorEvent>, b: seq<SensorEvent>)
    requires Proper(p) && Reported(p, enabled, events, a) && Reported(p, enabled, events, b)
    ensures a == b
  {
    var x :| Explains(p, enabled, events, |events|, x) && a == Flat(x);
    var y :| Explains(p, enabled, events, |events|, y) && b == Flat(y);
    forall i | 0 <= i < |events| ensures x[i] == y[i] {
      ReportsUnique(p, enabled, events, i, NUM_SENSORS, x[i], y[i]);
    }
    assert x == y;
  }

  ghost function Joined(a: seq<SensorEvent>, b: seq<SensorEvent>, c: seq<SensorEvent>): (ab: seq<SensorEvent>)
    ensures ab == a + b && ab + c == a + (b + c)
  {
    assert (a + b) + c == a + (b + c);
    a + b
  }

  class AkmSensor {
    const mEnabled: set<nat>
    var mPending: Pending
    const reader: InputEventCircularReader

    ghost var emitted: seq<SensorEvent>  // everything readEvents ever wrote
    ghost const start: Pending

    ghost predicate Valid()
      reads this, reader, reader.buffer
    {
      && reader.Valid() && Proper(mPending) && Proper(start)
      // nothing is lost, repeated or reordered, however the calls cut the stream
      && emitted + Out(mPending, mEnabled, reader.Unread()) == Out(start, mEnabled, reader.log)
      && End(mPending, reader.Unread()) == End(start, reader.log)
    }

    /** Everything written so far is the beginning of what the log says is to be reported, and all of it once
        the log has been read. */
    ghost predicate Explained()
      reads this, reader, reader.buffer
    {
      reader.Valid() && Proper(start)
      && exists all :: Reported(start, mEnabled, reader.log, all)
           && emitted <= all && (reader.Unread() == [] ==> emitted == all)
    }

    lemma ValidIsExplained()
      requires Valid()
      ensures Explained()
    {
      var rest, all := Out(mPending, mEnabled, reader.Unread()), Out(start, mEnabled, reader.log);
      OutIsReported(start, mEnabled, reader.log);
      assert emitted + rest == all;
      assert reader.Unread() == [] ==> rest == [];
      assert emitted <= all && (reader.Unread() == [] ==> emitted == all);
    }

    constructor (enabled: set<nat>)
      ensures Valid() && fresh(reader) && fresh(reader.buffer)
      ensures emitted == [] && reader.log == [] && reader.numEvents == 32
      ensures mEnabled == enabled && mPending == start
      ensures start.mask == {} && start.events
        == [SensorEvent(0, 0, 0, 0, 3, 0), SensorEvent(1, 0, 0, 0, 3, 0), SensorEvent(2, 0, 0, 0, 3, 0)]
    {
      mEnabled := enabled;
      var events := seq(NUM_SENSORS, j requires 0 <= j < NUM_SENSORS => SensorEvent(j, 0, 0, 0, 3, 0));
      mPending := Pending({}, events);
      start := Pending({}, events);
      reader := new InputEventCircularReader(32);
      emitted := [];
    }

    /** Codes other than 0 to 9 change nothing; each of these sets one bit and one reading of that sensor's event. */
    method ProcessEvent(code: int, value: int)
      requires Proper(mPending)
      modifies this`mPending
      ensures Proper(mPending) && mPending == Process(old(mPending), code, value)
      ensures !(0 <= code <= 9) ==> mPending == old(mPending)
      ensures 0 <= code <= 9 ==>
        var (j, axis) := Target(code);
        && mPending.mask == old(mPending).mask + {j}
        && (forall i :: 0 <= i < NUM_SENSORS && i != j ==> mPending.events[i] == old(mPending).events[i])
        && Reading(mPending.events[j], axis) == (if axis.Status? then value % 0x8000 % 0x100 else value)
        && (forall a :: a != axis ==> Reading(mPending.events[j], a) == Reading(old(mPending).events[j], a))
    {
      var (j, axis) := Target(code);
      if j >= 0 {
        mPending := Pending(mPending.mask + {j}, mPending.events[j := SetAxis(mPending.events[j], axis, value)]);
      }
    }

    /** The inner loop of readEvents: report a sync event into data[n0..], at most left0 entries. */
    method ReportSync(time: int, data: array<SensorEvent>, n0: nat, left0: nat) returns (n: nat, left: nat)
      requires Proper(mPending) && n0 + left0 <= data.Length
      modifies this`mPending, data
      ensures Proper(mPending) && n + left == n0 + left0 && n0 <= n
      ensures data[..n0] == old(data[..n0])
      ensures data[n0..n] + SyncOut(mPending, mEnabled, time, 0) == SyncOut(old(mPending), mEnabled, time, 0)
      ensures SyncEnd(mPending, time, 0) == SyncEnd(old(mPending), time, 0)
      ensures mPending.mask != {} ==> left == 0
    {
      n, left := n0, left0;
      ghost var outs: seq<SensorEvent> := [];
      ghost var p := mPending;
      var j := 0;
      while left != 0 && mPending.mask != {} && j < NUM_SENSORS
        invariant 0 <= j <= NUM_SENSORS && n + left == n0 + left0 && n0 <= n
        invariant Proper(mPending) && forall k :: k in mPending.mask ==> j <= k
        invariant data[..n0] == old(data[..n0])
        invariant data[n0..n] == outs
        invariant outs + SyncOut(mPending, mEnabled, time, j) == SyncOut(p, mEnabled, time, 0)
        invariant SyncEnd(mPending, time, j) == SyncEnd(p, time, 0)
      {
        SyncStep(mPending, mEnabled, time, j, outs);
        if j in mPending.mask {
          mPending := Stamp(mPending, j, time);
          if j in mEnabled {
            data[n] := mPending.events[j];
            outs := outs + [mPending.events[j]];
            n, left := n + 1, left - 1;
            assert data[n0..n] == data[n0..n - 1] + [data[n - 1]];
          }
        }
        j := j + 1;
      }
      SyncResumes(mPending, mEnabled, time, 0, j);
    }

    /** The sync branch of the outer loop: report what fits, and pass on only when nothing is pending. */
    method VisitSync(event: InputEvent, data: array<SensorEvent>, n0: nat, left0: nat) returns (n: nat, left: nat)
      requires reader.Valid() && Proper(mPending) && n0 + left0 <= data.Length && left0 != 0
      requires data as object != reader.buffer
      requires reader.Unread() != [] && event == reader.Unread()[0] && event.kind == EV_SYN
      modifies this`mPending, reader, data
      ensures reader.Valid() && Proper(mPending) && reader.log == old(reader.log)
      ensures n + left == n0 + left0 && n0 <= n && data[..n0] == old(data[..n0])
      ensures data[n0..n] + Out(mPending, mEnabled, reader.Unread()) ==
        Out(old(mPending), mEnabled, old(reader.Unread()))
      ensures End(mPending, reader.Unread()) == End(old(mPending), old(reader.Unread()))
      ensures |reader.Unread()| < old(|reader.Unread()|) || (reader.Unread() == old(reader.Unread()) && left < left0)
    {
      n, left := ReportSync(Nanos(event), data, n0, left0);
      SyncInterrupted(old(mPending), mPending, mEnabled, reader.Unread(), [], data[n0..n]);
      assert [] + data[n0..n] == data[n0..n];
      if mPending.mask == {} {
        reader.Next();
      }
    }

    /** The other two branches: the event is processed, or unknown, and passed. */
    method VisitOther(event: InputEvent)
      requires reader.Valid() && Proper(mPending)
      requires reader.Unread() != [] && event == reader.Unread()[0] && event.kind != EV_SYN
      modifies this`mPending, reader
      ensures reader.Valid() && Proper(mPending) && reader.log == old(reader.log)
      ensures Out(mPending, mEnabled, reader.Unread()) == Out(old(mPending), mEnabled, old(reader.Unread()))
      ensures End(mPending, reader.Unread()) == End(old(mPending), old(reader.Unread()))
      ensures |reader.Unread()| < old(|reader.Unread()|)
    {
      DrainStep(mPending, mEnabled, reader.Unread());
      if event.kind == EV_REL {
        ProcessEvent(event.code, event.value);
      }
      reader.Next();
    }

    /** One round of the outer loop. */
    method Visit(event: InputEvent, data: array<SensorEvent>, n0: nat, left0: nat) returns (n: nat, left: nat)
      requires reader.Valid() && Proper(mPending) && n0 + left0 <= data.Length && left0 != 0
      requires data as object != reader.buffer
      requires reader.Unread() != [] && event == reader.Unread()[0]
      modifies this`mPending, reader, data
      ensures reader.Valid() && Proper(mPending) && reader.log == old(reader.log)
      ensures n + left == n0 + left0 && n0 <= n && data[..n0] == old(data[..n0])
      ensures data[n0..n] + Out(mPending, mEnabled, reader.Unread()) ==
        Out(old(mPending), mEnabled, old(reader.Unread()))
      ensures End(mPending, reader.Unread()) == End(old(mPending), old(reader.Unread()))
      ensures |reader.Unread()| < old(|reader.Unread()|) || (reader.Unread() == old(reader.Unread()) && left < left0)
    {
      if event.kind == EV_SYN {
        n, left := VisitSync(event, data, n0, left0);
      } else {
        VisitOther(event);
        n, left := n0, left0;
        assert data[n0..n0] == [];
      }
    }

    /** The outer loop of readEvents, after the fill. */
    method Drain(data: array<SensorEvent>, count: nat) returns (n: nat)
      requires reader.Valid() && Proper(mPending) && count <= data.Length
      requires data as object != reader.buffer
      modifies this`mPending, reader, data
      ensures reader.Valid() && Proper(mPending) && reader.log == old(reader.log)
      ensures n <= count && (n < count ==> reader.Unread() == [])
      ensures data[..n] + Out(mPending, mEnabled, reader.Unread()) == Out(old(mPending), mEnabled, old(reader.Unread()))
      ensures End(mPending, reader.Unread()) == End(old(mPending), old(reader.Unread()))
    {
      n := 0;
      var left := count;
      ghost var outs: seq<SensorEvent>, todo := [], reader.Unread();
      ghost var all, end := Out(mPending, mEnabled, todo), End(mPending, todo);
      var more: bool, at: nat := reader.ReadEvent();
      while left != 0 && more
        invariant n + left == count
        invariant reader.Valid() && Proper(mPending) && reader.log == old(reader.log)
        invariant todo == reader.Unread() && data[..n] == outs
        invariant more <==> todo != []
        invariant more ==> at < reader.buffer.Length && reader.buffer[at] == todo[0]
        invariant outs + Out(mPending, mEnabled, todo) == all
        invariant End(mPending, todo) == end
        decreases |todo|, left
      {
        var event := reader.buffer[at];
        ghost var m := n;
        n, left := Visit(event, data, n, left);
        outs := Joined(outs, data[m..n], Out(mPending, mEnabled, reader.Unread()));
        assert data[..n] == data[..m] + data[m..n];
        todo := reader.Unread();
        more, at := reader.ReadEvent();
      }
    }

    /** readEvents: `r` is what the device delivers to the fill. */
    method ReadEvents(r: ReadResult, data: array<SensorEvent>, count: int) returns (n: int)
      requires Valid() && count <= data.Length
      requires r.Delivered? ==> |r.events| <= reader.freeSpace
      requires data as object != reader.buffer
      modifies this`mPending, this`emitted, reader, reader.buffer, data
      ensures Valid() && Explained()
      ensures count < 1 ==> n == -EINVAL && reader.log == old(reader.log) && emitted == old(emitted)
      ensures count >= 1 && n >= 0 ==>
        && n <= count
        && reader.log == old(reader.log) + (if r.Delivered? then r.events else [])
        && emitted == old(emitted) + data[..n]
        && (n < count ==> reader.Unread() == [])
      ensures count >= 1 && n < 0 ==> !r.Delivered? && emitted == old(emitted) && reader.log == old(reader.log)
      ensures count >= 1 && old(reader.freeSpace) != 0 && r.Failed? && r.errno != 0 ==> n == -(r.errno as int)
      ensures count >= 1 && old(reader.freeSpace) != 0 && r.PartialEvent? ==> n == -22
    {
      n := ReadMore(r, data, count);
      ValidIsExplained();
    }

    method ReadMore(r: ReadResult, data: array<SensorEvent>, count: int) returns (n: int)
      requires Valid() && count <= data.Length
      requires r.Delivered? ==> |r.events| <= reader.freeSpace
      requires data as object != reader.buffer
      modifies this`mPending, this`emitted, reader, reader.buffer, data
      ensures Valid()
      ensures count < 1 ==> n == -EINVAL && reader.log == old(reader.log) && emitted == old(emitted)
      ensures count >= 1 && n >= 0 ==>
        && n <= count
        && reader.log == old(reader.log) + (if r.Delivered? then r.events else [])
        && emitted == old(emitted) + data[..n]
        && (n < count ==> reader.Unread() == [])
      ensures count >= 1 && n < 0 ==> !r.Delivered? && emitted == old(emitted) && reader.log == old(reader.log)
      ensures count >= 1 && old(reader.freeSpace) != 0 && r.Failed? && r.errno != 0 ==> n == -(r.errno as int)
      ensures count >= 1 && old(reader.freeSpace) != 0 && r.PartialEvent? ==> n == -22
    {
      if count < 1 {
        return -EINVAL;
      }
      ghost var unread, log, added := reader.Unread(), reader.log, if r.Delivered? then r.events else [];
      n := reader.Fill(r);
      assert reader.Unread() == unread + added;
      FillAdds(mPending, start, mEnabled, unread, log, added, emitted);
      if n >= 0 {
        n := Emit(data, count);
      }
    }

    method Emit(data: array<SensorEvent>, count: nat) returns (n: nat)
      requires Valid() && count <= data.Length && data as object != reader.buffer
      modifies this`mPending, this`emitted, reader, data
      ensures Valid() && n <= count && (n < count ==> reader.Unread() == [])
      ensures reader.log == old(reader.log) && emitted == old(emitted) + data[..n]
    {
      ghost var all := Out(mPending, mEnabled, reader.Unread());
      n := Drain(data, count);
      ghost var rest := Out(mPending, mEnabled, reader.Unread());
      assert emitted + all == (emitted + data[..n]) + rest;
      emitted := emitted + data[..n];
    }
  }

  /** What the fill adds to the log it adds to what is still unread. */
  lemma FillAdds(p: Pending, start: Pending, enabled: set<nat>, unread: seq<InputEvent>, log: seq<InputEvent>,
      added: seq<InputEvent>, emitted: seq<SensorEvent>)
    requires Proper(p) && Proper(start)
    requires emitted + Out(p, enabled, unread) == Out(start, enabled, log) && End(p, unread) == End(start, log)
    ensures emitted + Out(p, enabled, unread + added) == Out(start, enabled, log + added)
    ensures End(p, unread + added) == End(start, log + added)
  {
    OutConcat(p, enabled, unread, added);
    OutConcat(start, enabled, log, added);
    var more := Out(End(p, unread), enabled, added);
    assert emitted + (Out(p, enabled, unread) + more) == (emitted + Out(p, enabled, unread)) + more;
  }

  /** However two runs cut the same input into calls, once both have drained it they
      have reported the same events in the same order and have the same left pending. */
  lemma ChunkingInvariance(a: AkmSensor, b: AkmSensor)
    requires a.Valid() && b.Valid() && a.mEnabled == b.mEnabled && a.start == b.start
    requires a.reader.log == b.reader.log && a.reader.Unread() == [] && b.reader.Unread() == []
    ensures a.emitted == b.emitted && a.mPending == b.mPending
  {
    assert Out(a.mPending, a.mEnabled, []) == [] && Out(b.mPending, b.mEnabled, []) == [];
    assert End(a.mPending, []) == a.mPending && End(b.mPending, []) == b.mPending;
    assert a.emitted + [] == a.emitted && b.emitted + [] == b.emitted;
  }
}
