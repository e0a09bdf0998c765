/** The multiplexing loop over the sensor drivers. */
module PollEvents {
  import opened InputEventReader
  import Akm = AkmSensor

  type Report = Akm.SensorEvent

  const NUM_SENSOR_DRIVERS: nat := 4  // acceleration, light, akm, gyro
  const NUM_FDS: nat := NUM_SENSOR_DRIVERS + 1
  const WAKE: nat := NUM_FDS - 1

  /** A driver as pollEvents sees it: its ring, and the event hasPendingEvents() announces. */
  datatype Driver = Driver(enabled: bool, pending: bool, ring: seq<InputEvent>)

  /** What a successful readEvents may do: a pending event is handed over without
      looking at the ring, otherwise reporting less than asked for means the ring is empty. */
  ghost predicate Reads(before: Driver, after: Driver, room: nat, out: seq<Report>) {
    && after.enabled == before.enabled && !after.pending
    && (if before.pending then
          after.ring == before.ring && |out| == (if before.enabled then 1 else 0)
        else
          |out| <= room && (|out| < room ==> after.ring == []))
  }

  ghost function View(s: Akm.AkmSensor): Driver
    requires s.reader.Valid()
    reads s, s.reader, s.reader.buffer
  {
    Driver(s.mEnabled != {}, false, s.reader.Unread())
  }

  /** The compass driver reads as Reads says. */
  method ReadAkm(s: Akm.AkmSensor, r: ReadResult, data: array<Report>, room: nat) returns (n: int)
    requires s.Valid() && 1 <= room <= data.Length
    requires r.Delivered? && |r.events| <= s.reader.freeSpace
    requires data as object != s.reader.buffer
    modifies s, s.reader, s.reader.buffer, data
    ensures s.Valid() && 0 <= n <= room && Reads(old(View(s)), View(s), room, data[..n])
  {
    n := s.ReadEvents(r, data, room);
  }

  /** A sensor whose ring still holds events is marked readable. */
  ghost predicate Tracked(d: Driver, revent: bool) { d.ring != [] ==> revent }

  /** Visiting a marked sensor clears its mark exactly when it reports less than asked for. That
      loses track of its ring if and only if it had both a pending event and a ring. */
  lemma VisitKeepsTrack(before: Driver, after: Driver, room: nat, out: seq<Report>)
    requires Reads(before, after, room, out) && room >= 1
    ensures Tracked(after, !(|out| < room))
       <==> !(before.pending && before.ring != [] && (if before.enabled then 1 else 0) < room)
  {
  }

  /** What one readEvents call would hand over, and what it would leave in the ring when it is stopped by its count. */
  datatype Delivery = Delivery(given: seq<Report>, left: seq<InputEvent>)

  datatype Snapshot = PollError(errno: nat) | Ready(fds: seq<bool>)

  /** Waiting: the call is still blocked when the snapshots given to it are used up. */
  datatype Outcome = Returned(nbEvents: nat) | Failed(errno: nat) | Waiting

  predicate AnyReady(s: Snapshot) { s.Ready? && true in s.fds }

  function First(ds: seq<Delivery>): Delivery { if ds == [] then Delivery([], []) else ds[0] }
  function Rest(ds: seq<Delivery>): seq<Delivery> { if ds == [] then [] else ds[1..] }

  /** The number of events in the deliveries. */
  function Given(ds: seq<Delivery>): nat { if ds == [] then 0 else |ds[0].given| + Given(ds[1..]) }

  function Min(a: nat, b: nat): nat { if a < b then a else b }

  class PollContext {
    var drivers: seq<Driver>
    const revents: array<bool>  // the POLLIN bits of mPollFds

    ghost var reported: seq<Report>  // everything the drivers ever handed over

    ghost predicate Valid()
      reads this, revents
    {
      && |drivers| == NUM_SENSOR_DRIVERS && revents.Length == NUM_FDS
      && !revents[WAKE]  // a wake message is read at once
      && forall i :: 0 <= i < NUM_SENSOR_DRIVERS ==>
        Tracked(drivers[i], revents[i]) && (drivers[i].pending ==> drivers[i].ring == [])
    }

    constructor (enabled: seq<bool>)
      requires |enabled| == NUM_SENSOR_DRIVERS
      ensures Valid() && NonePending() && fresh(revents) && reported == []
    {
      drivers := seq(NUM_SENSOR_DRIVERS, i requires 0 <= i < NUM_SENSOR_DRIVERS => Driver(enabled[i], false, []));
      reported := [];
      revents := new bool[NUM_FDS];
      new;
      forall i | 0 <= i < NUM_FDS { revents[i] := false; }
    }

    /** readEvents of driver i, given what its device delivers; a pending event is in the delivery too. */
    method ReadEvents(i: nat, data: array<Report>, at: nat, room: nat, d: Delivery) returns (nb: nat)
      requires i < |drivers| && room >= 1 && at + room <= data.Length
      modifies this`drivers, this`reported, data
      ensures nb <= room && |drivers| == old(|drivers|)
      ensures forall k :: 0 <= k < |drivers| && k != i ==> drivers[k] == old(drivers[k])
      ensures data[..at] == old(data[..at]) && data[at + room..] == old(data[at + room..])
      ensures Reads(old(drivers[i]), drivers[i], room, data[at..at + nb])
      ensures !old(drivers[i].pending) ==> nb == Min(|d.given|, room) && data[at..at + nb] == d.given[..nb]
      ensures reported == old(reported) + data[at..at + nb]
    {
      var before := drivers[i];
      var out, after;
      if before.pending {
        out := if before.enabled then [if d.given == [] then data[at] else d.given[0]] else [];
        after := before.(pending := false);
      } else {
        out := d.given[..Min(|d.given|, room)];
        after := before.(ring := if |out| < room then [] else d.left);
      }
      nb := |out|;
      forall k | 0 <= k < nb { data[at + k] := out[k]; }
      assert forall k :: 0 <= k < nb ==> data[at..at + nb][k] == data[at + k] == out[k];
      drivers := drivers[i := after];
      reported := reported + out;
    }

    /** poll(), which is assumed to block until some descriptor is ready if asked to. */
    method Poll(block: bool, snapshots: seq<Snapshot>) returns (outcome: Outcome, ready: bool, rest: seq<Snapshot>)
      requires revents.Length == NUM_FDS
      requires forall s :: s in snapshots && s.Ready? ==> |s.fds| == NUM_FDS
      modifies revents
      ensures |rest| <= |snapshots|
      ensures forall s :: s in rest ==> s in snapshots
      ensures outcome.Waiting? ==> block
      ensures outcome.Failed? ==> PollError(outcome.errno) in snapshots
      ensures snapshots != [] && snapshots[0].PollError? ==> outcome == Outcome.Failed(snapshots[0].errno)
      ensures outcome.Returned? ==> (block ==> ready) && (ready ==> |rest| < |snapshots|)
      ensures outcome.Waiting? || (outcome.Returned? && !ready) ==> forall i :: 0 <= i < NUM_FDS ==> !revents[i]
      ensures outcome.Failed? ==> revents[..] == old(revents[..])
    {
      rest, ready := snapshots, false;
      while block && rest != [] && rest[0].Ready? && !AnyReady(rest[0])
        invariant |rest| <= |snapshots| && forall s :: s in rest ==> s in snapshots
        invariant snapshots != [] && snapshots[0].PollError? ==> rest == snapshots
      {
        rest := rest[1..];
      }
      if rest == [] {
        forall i | 0 <= i < NUM_FDS { revents[i] := false; }
        outcome := if block then Waiting else Returned(0);
      } else {
        var s := rest[0];
        rest := rest[1..];
        match s
        case PollError(errno) =>
          outcome := Outcome.Failed(errno);
        case Ready(fds) =>
          forall i | 0 <= i < NUM_FDS { revents[i] := fds[i]; }
          ready := AnyReady(s);
          outcome := Returned(0);
      }
    }

    /** Whether driver i is read, when there is room. */
    predicate Marked(i: nat)
      requires i < |drivers| && i < revents.Length
      reads this, revents
    {
      revents[i] || drivers[i].pending
    }

    ghost predicate NonePending()
      reads this
    {
      forall i :: 0 <= i < |drivers| ==> !drivers[i].pending
    }

    /** Some sensor was found readable, and none has an event pending: the next scan reads the first delivery. */
    ghost predicate SomeReadable()
      requires Valid()
      reads this, revents
    {
      NonePending() && exists i :: 0 <= i < NUM_SENSOR_DRIVERS && revents[i]
    }

    /** Nothing is left in driver k, and it is not marked. */
    predicate Drained(k: nat)
      requires k < |drivers| && k < revents.Length
      reads this, revents
    {
      drivers[k].ring == [] && !drivers[k].pending && !revents[k]
    }

    /** One round of the scan over the drivers. */
    method VisitDriver(i: nat, data: array<Report>, at: nat, room: nat, ds: seq<Delivery>)
      returns (nb: nat, rest: seq<Delivery>)
      requires Valid() && i < NUM_SENSOR_DRIVERS && room >= 1 && at + room <= data.Length && data as object != revents
      modifies this`drivers, this`reported, revents, data
      ensures Valid() && nb <= room
      ensures forall k :: 0 <= k < NUM_SENSOR_DRIVERS && k != i ==>
        drivers[k] == old(drivers[k]) && revents[k] == old(revents[k])
      ensures nb < room ==> Drained(i)
      ensures forall k :: 0 <= k < NUM_SENSOR_DRIVERS && k != i && old(Drained(k)) ==> Drained(k)
      ensures data[..at] == old(data[..at]) && data[at + room..] == old(data[at + room..])
      ensures reported == old(reported) + data[at..at + nb]
      ensures revents[i] == (old(revents[i]) && nb == room)
      ensures revents[WAKE] == old(revents[WAKE])
      ensures old(Marked(i)) && !old(drivers[i].pending) ==>
        nb == Min(|First(ds).given|, room) && data[at..at + nb] == First(ds).given[..nb] && rest == Rest(ds)
      ensures !old(Marked(i)) ==> nb == 0 && rest == ds
      ensures old(NonePending()) ==> NonePending() && nb + Given(rest) <= Given(ds)
    {
      nb, rest := 0, ds;
      if Marked(i) {
        nb := ReadEvents(i, data, at, room, First(ds));
        rest := Rest(ds);
        if nb < room {
          revents[i] := false;
        }
      } else {
        assert data[at..at] == [];
      }
    }

    /** The scan has come to driver i: those before it have nothing left, but for the last one if that has used up
        the room; those from it on are as they were. */
    ghost predicate Scanned(i: nat, room: nat, drivers0: seq<Driver>, marks0: seq<bool>)
      requires |drivers| == |drivers0| == NUM_SENSOR_DRIVERS && revents.Length == |marks0| == NUM_FDS
      reads this, revents
    {
      && i <= NUM_SENSOR_DRIVERS
      && (forall k :: 0 <= k < i && (k < i - 1 || room != 0) ==> Drained(k))
      && forall k :: i <= k < NUM_SENSOR_DRIVERS ==> drivers[k] == drivers0[k] && revents[k] == marks0[k]
    }

    /** One step of the scan. */
    method VisitNext(i: nat, data: array<Report>, at: nat, room: nat, ds: seq<Delivery>,
        ghost drivers0: seq<Driver>, ghost marks0: seq<bool>)
      returns (nb: nat, rest: seq<Delivery>)
      requires Valid() && i < NUM_SENSOR_DRIVERS && room >= 1 && at + room <= data.Length && data as object != revents
      requires |drivers0| == NUM_SENSOR_DRIVERS && |marks0| == NUM_FDS && Scanned(i, room, drivers0, marks0)
      modifies this`drivers, this`reported, revents, data
      ensures Valid() && nb <= room && Scanned(i + 1, room - nb, drivers0, marks0)
      ensures data[..at] == old(data[..at]) && data[at + room..] == old(data[at + room..])
      ensures reported == old(reported) + data[at..at + nb]
      ensures marks0[i] && !drivers0[i].pending ==> nb == Min(|First(ds).given|, room)
      ensures !marks0[i] && !drivers0[i].pending ==> nb == 0 && rest == ds
      ensures old(NonePending()) ==> NonePending() && nb + Given(rest) <= Given(ds)
    {
      nb, rest := VisitDriver(i, data, at, room, ds);
    }

    /** The scan over the drivers: while room is left, every driver passed has an empty ring. */
    method ReadAll(data: array<Report>, at0: nat, room0: nat, ds: seq<Delivery>)
      returns (at: nat, room: nat, rest: seq<Delivery>, ghost visited: nat)
      requires Valid() && at0 + room0 <= data.Length && data as object != revents
      modifies this`drivers, this`reported, revents, data
      ensures Valid()
      ensures at + room == at0 + room0 && at0 <= at
      ensures data[..at0] == old(data[..at0]) && data[at0 + room0..] == old(data[at0 + room0..])
      ensures reported == old(reported) + data[at0..at]
      ensures visited <= NUM_SENSOR_DRIVERS && (room != 0 ==> visited == NUM_SENSOR_DRIVERS)
      ensures Scanned(visited, room, old(drivers), old(revents[..]))
      ensures old(SomeReadable()) ==> at - at0 >= Min(|First(ds).given|, room0)
      ensures old(NonePending()) ==> NonePending() && at - at0 + Given(rest) <= Given(ds)
    {
      at, room, rest := at0, room0, ds;
      ghost var readable, drivers0, marks0 := SomeReadable(), drivers, revents[..];
      var i := 0;
      visited := 0;
      while room != 0 && i < NUM_SENSOR_DRIVERS
        invariant 0 <= i <= NUM_SENSOR_DRIVERS && Valid()
        invariant at + room == at0 + room0 && at0 <= at
        invariant data[..at0] == old(data[..at0]) && data[at0 + room0..] == old(data[at0 + room0..])
        invariant reported == old(reported) + data[at0..at]
        invariant visited == i && Scanned(i, room, drivers0, marks0)
        invariant old(NonePending()) ==> NonePending() && at - at0 + Given(rest) <= Given(ds)
        invariant readable && at - at0 < Min(|First(ds).given|, room0) ==>
          && at == at0 && rest == ds
          && (forall k :: 0 <= k < i ==> !marks0[k])
      {
        ghost var before, sofar, from := data[..at], data[at0..at], at;
        var nb;
        nb, rest := VisitNext(i, data, at, room, rest, drivers0, marks0);
        Extends(before, data[..], at0, at, room, nb, at0 + room0);
        at, room := at + nb, room - nb;
        i := i + 1;
        visited := i;
      }
    }

    /** What a round appends: the part written so far grows, the rest is as it was. */
    lemma Extends(before: seq<Report>, now: seq<Report>, at0: nat, at: nat, room: nat, nb: nat, end: nat)
      requires at0 <= at == |before| && nb <= room && end == at + room <= |now| && now[..at] == before
      ensures now[at0..at] == before[at0..] && now[at0..at + nb] == before[at0..] + now[at..at + nb] &&
        now[..at0] == before[..at0]
    {
    }

    /** The scan, after nbEvents events of a call that began with was reported. */
    method ReadMore(data: array<Report>, nbEvents: nat, room0: nat, ds: seq<Delivery>, ghost count: nat,
        ghost was: seq<Report>)
      returns (at: nat, room: nat, rest: seq<Delivery>)
      requires Valid() && nbEvents + room0 == count <= data.Length && data as object != revents
      requires reported == was + data[..nbEvents]
      modifies this`drivers, this`reported, revents, data
      ensures Valid() && at + room == count && nbEvents <= at
      ensures data[count..] == old(data[count..]) && reported == was + data[..at]
      ensures room != 0 ==> forall i :: 0 <= i < NUM_SENSOR_DRIVERS ==> Drained(i)
      ensures old(SomeReadable()) ==> at - nbEvents >= Min(|First(ds).given|, room0)
      ensures old(NonePending()) ==> NonePending() && at - nbEvents + Given(rest) <= Given(ds)
    {
      ghost var sofar := data[..nbEvents];
      ghost var visited;
      at, room, rest, visited := ReadAll(data, nbEvents, room0, ds);
      assert data[..at] == sofar + data[nbEvents..at];
    }

    /** pollEvents: entries written are the entries counted, a request is answered with at least
        one event, and whatever is left in a ring is marked to be drained by the next call. A call
        never blocks while it holds events; only a failing poll() drops what was already read. */
    method PollEvents(data: array<Report>, count: nat, snapshots: seq<Snapshot>, ds: seq<Delivery>)
      returns (outcome: Outcome, ghost lost: nat)
      requires Valid() && count <= data.Length && data as object != revents
      requires forall s :: s in snapshots && s.Ready? ==> |s.fds| == NUM_FDS
      modifies this`drivers, this`reported, revents, data
      ensures Valid()
      ensures data[count..] == old(data[count..])
      ensures outcome.Returned? ==>
        && outcome.nbEvents <= count && (count >= 1 ==> outcome.nbEvents >= 1)
        && reported == old(reported) + data[..outcome.nbEvents]
      ensures outcome.Returned? && outcome.nbEvents < count ==> forall i :: 0 <= i < NUM_SENSOR_DRIVERS ==> Drained(i)
      ensures outcome.Waiting? ==> reported == old(reported)
      ensures outcome.Failed? ==>
        && PollError(outcome.errno) in snapshots
        && lost < count && reported == old(reported) + data[..lost]
        && (old(SomeReadable()) ==> lost >= Min(|First(ds).given|, count))
      ensures count >= 1 && snapshots != [] && snapshots[0].PollError? ==>
        outcome == Outcome.Failed(snapshots[0].errno) || outcome == Returned(count)
      ensures old(NonePending()) ==>
        (outcome.Returned? ==> outcome.nbEvents <= Given(ds)) && (outcome.Failed? ==> lost <= Given(ds))
    {
      var nbEvents: nat, room: nat, rest, deliveries, more := 0, count, snapshots, ds, true;
      ghost var first := true;
      lost := 0;
      while more
        invariant Valid() && nbEvents + room == count
        invariant data[count..] == old(data[count..]) && reported == old(reported) + data[..nbEvents]
        invariant forall s :: s in rest ==> s in snapshots
        invariant !more && count >= 1 ==> nbEvents >= 1
        invariant !more && room != 0 ==> forall i :: 0 <= i < NUM_SENSOR_DRIVERS ==> Drained(i)
        invariant first ==>
          more && nbEvents == 0 && rest == snapshots && deliveries == ds && (SomeReadable() <==> old(SomeReadable()))
        invariant !first && old(SomeReadable()) ==> nbEvents >= Min(|First(ds).given|, count)
        invariant !first && snapshots != [] && snapshots[0].PollError? ==> !more && nbEvents == count
        invariant old(NonePending()) ==> NonePending() && nbEvents + Given(deliveries) <= Given(ds)
        decreases |rest|, more
      {
        nbEvents, room, deliveries := ReadMore(data, nbEvents, room, deliveries, count, old(reported));
        more := false;
        if room != 0 {
          assert forall i :: 0 <= i < NUM_SENSOR_DRIVERS && Drained(i) ==> drivers[i].ring == [] && !drivers[i].pending;
          assert !revents[WAKE];
          ghost var before := revents[..];
          var polled, ready, later := Poll(nbEvents == 0, rest);
          if !polled.Returned? {
            assert polled.Failed? ==> !before[WAKE] && revents[WAKE] == revents[..][WAKE];
            assert polled.Waiting? ==> data[..0] == [];
            outcome, lost := polled, nbEvents;
            return;
          }
          if revents[WAKE] {
            revents[WAKE] := false;  // the wake message has been read
          }
          more, rest := ready, later;
        }
        first := false;
      }
      outcome := Returned(nbEvents);
    }
  }

  /** A sensor was found readable, its event is read, and then poll() fails: the event is gone. */
  method FailureDropsEvents(event: Report) returns (outcome: Outcome, ghost lost: nat)
    ensures outcome == Outcome.Failed(4) && lost == 1
  {
    var context := new PollContext([true, true, true, true]);
    var data := new Report[2];
    context.revents[0] := true;
    assert Given([Delivery([event], [])]) == 1;
    outcome, lost := context.PollEvents(data, 2, [PollError(4)], [Delivery([event], [])]);
  }
}
