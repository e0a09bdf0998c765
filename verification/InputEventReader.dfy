/** The circular buffer between the kernel's input device and the sensor drivers. */
module InputEventReader {

  const EINVAL: int := 22

  datatype InputEvent = InputEvent(sec: int, usec: int, kind: int, code: int, value: int)

  /** What read() on the device delivered. */
  datatype ReadResult =
    | Failed(errno: nat)
    | PartialEvent
    | Delivered(events: seq<InputEvent>)

  /** Twice numEvents slots: the ring is the first half, and read() may run over into the second. */
  class InputEventCircularReader {
    const numEvents: nat
    const buffer: array<InputEvent>
    var head: nat       // where the next read() writes; may rest at the end of the ring
    var curr: nat       // the oldest unread event
    var freeSpace: nat

    ghost var log: seq<InputEvent>  // everything read() ever delivered
    ghost var popped: nat           // how much of it has been consumed

    function Slot(k: nat): nat
      reads this
    {
      if curr + k < numEvents then curr + k else curr + k - numEvents
    }

    ghost predicate Valid()
      reads this, buffer
    {
      && buffer.Length == 2 * numEvents
      && freeSpace <= numEvents && head <= numEvents
      && (curr < numEvents || curr == numEvents == 0)
      && popped + (numEvents - freeSpace) == |log|
      // head is one past the newest unread event, going round the ring
      && (head == curr + (numEvents - freeSpace)
          || head + numEvents == curr + (numEvents - freeSpace)
          || (head == numEvents && curr == 0 && freeSpace == numEvents))
      && forall k :: 0 <= k < numEvents - freeSpace ==> buffer[Slot(k)] == log[popped + k]
    }

    ghost function Unread(): seq<InputEvent>
      requires Valid()
      reads this, buffer
    {
      log[popped..]
    }

    constructor (numEvents: nat)
      ensures Valid() && fresh(buffer)
      ensures this.numEvents == numEvents && log == [] && popped == 0
    {
      this.numEvents := numEvents;
      buffer := new InputEvent[2 * numEvents];
      head, curr, freeSpace := 0, 0, numEvents;
      log, popped := [], 0;
    }

    /** The first half of fill(): read() puts the events in at the head, then what ran
        over into the second half is copied to the front of the ring. */
    method Store(events: seq<InputEvent>)
      requires buffer.Length == 2 * numEvents && head <= numEvents && 1 <= |events| <= numEvents
      modifies this`head, buffer
      ensures head ==
        (if old(head) + |events| > numEvents then old(head) + |events| - numEvents else old(head) + |events|)
      ensures forall i :: 0 <= i < numEvents ==>
        buffer[i] == if old(head) <= i < old(head) + |events| then events[i - old(head)]
                     else if i + numEvents < old(head) + |events| then events[i + numEvents - old(head)]
                     else old(buffer[i])
    {
      forall i | 0 <= i < |events| {
        buffer[head + i] := events[i];
      }
      head := head + |events|;
      if head > numEvents {
        var s := head - numEvents;
        forall i | 0 <= i < s {
          buffer[i] := buffer[numEvents + i];
        }
        head := s;
      }
    }

    /** fill(): read() is asked for at most freeSpace events, so it delivers no more. */
    method Fill(r: ReadResult) returns (n: int)
      requires Valid()
      requires r.Delivered? ==> |r.events| <= freeSpace
      modifies this`head, this`freeSpace, this`log, buffer
      ensures Valid()
      ensures log == old(log) + (if r.Delivered? then r.events else [])
      ensures n == (if old(freeSpace) == 0 then 0
                    else if r.Failed? then -(r.errno as int)
                    else if r.PartialEvent? then -EINVAL
                    else |r.events|)
    {
      n := 0;
      if freeSpace != 0 {
        match r
        case Failed(errno) => return -(errno as int);
        case PartialEvent => return -EINVAL;
        case Delivered(events) =>
          n := |events|;
          if n != 0 {
            ghost var h, kept := head, numEvents - freeSpace;
            Store(events);
            freeSpace := freeSpace - |events|;
            log := log + events;
            forall k | 0 <= k < numEvents - freeSpace ensures buffer[Slot(k)] == log[popped + k] {
              if k < kept {
                assert buffer[Slot(k)] == old(buffer[Slot(k)]);
              } else {
                assert log[popped + k] == events[k - kept];
                assert Slot(k) == h + (k - kept) || Slot(k) + numEvents == h + (k - kept);
              }
            }
          }
      }
    }

    /** readEvent(): whether an event is available, and the slot mCurr points at. */
    method ReadEvent() returns (available: bool, at: nat)
      requires Valid()
      ensures available <==> Unread() != []
      ensures at == curr
      ensures available ==> at < buffer.Length && buffer[at] == Unread()[0]
    {
      at := curr;
      available := numEvents - freeSpace != 0;
      assert available ==> Slot(0) == curr;
    }

    /** next(), called only while an event is available. */
    method Next()
      requires Valid() && Unread() != []
      modifies this`curr, this`freeSpace, this`popped
      ensures Valid() && popped == old(popped) + 1
      ensures Unread() == old(Unread())[1..]
    {
      curr := curr + 1;
      freeSpace := freeSpace + 1;
      if curr >= numEvents {
        curr := 0;
      }
      popped := popped + 1;
      forall k | 0 <= k < numEvents - freeSpace ensures buffer[Slot(k)] == log[popped + k] {
        assert Slot(k) == old(Slot(k + 1));
      }
    }
  }
}
