/** Copy-on-write vectors over the shared buffers. */
module VectorImpl {
  import opened SharedBuffer
  import opened StableSort

  const MIN_VECTOR_CAPACITY: nat := 4

  datatype Status = Index(index: nat) | BadIndex | BadValue | NoMemory

  function Max(a: nat, b: nat): (r: nat)
    ensures r >= a && r >= b && (r == a || r == b)
  {
    if a > b then a else b
  }

  /** The capacity after growing a full vector to newSize. */
  function Grown(newSize: nat): (r: nat)
    ensures r == if newSize < 2 then 4 else newSize + newSize / 2 + 1
  {
    Max(MIN_VECTOR_CAPACITY, newSize + newSize / 2 + 1)
  }

  /** The capacity of a new buffer after shrinking to newSize. */
  function Shrunk(newSize: nat): (r: nat)
    ensures r == if newSize < 2 then 4 else 2 * newSize
  {
    Max(MIN_VECTOR_CAPACITY, newSize * 2)
  }

  /** realloc, or alloc and memcpy: the slots that fit are kept, new ones are raw. */
  function Resized<T>(slots: seq<Slot<T>>, n: nat): (r: seq<Slot<T>>)
    ensures |r| == n
  {
    if n <= |slots| then slots[..n] else slots + RawSlots(n - |slots|)
  }

  function Lives<T>(items: seq<T>): (s: seq<Slot<T>>)
    ensures |s| == |items| && AllLive(s) && forall i :: 0 <= i < |s| ==> s[i] == Live(items[i])
  {
    seq(|items|, i requires 0 <= i < |items| => Live(items[i]))
  }

  ghost function Elements<T>(s: seq<Slot<T>>): (items: seq<T>)
    requires AllLive(s)
    ensures |items| == |s| && s == Lives(items)
  {
    seq(|s|, i requires 0 <= i < |s| => s[i].value)
  }

  /** How things stood when a sort began. */
  datatype Start<T> = Start(heap: Heap<T>, vecs: Vecs, constructed: nat, destroyed: nat, shared: nat)

  /** All the vectors of one element type. */
  class Vectors<T> {
    const trivialCopy: bool
    const trivialDtor: bool
    var heap: Heap<T>
    var vecs: Vecs
    var brk: nat      // no buffer was ever at this address or above
    var copied: nat   // elements copied because a vector outgrew its buffer
    ghost var constructed: nat  // how often an element was constructed
    ghost var destroyed: nat    // and how often one was destroyed

    /** The heap is in order, and every element constructed was destroyed or is in it. */
    ghost predicate Valid()
      reads this
    {
      Intact() && Owes(0)
    }

    /** Valid, but v's slots are just being changed. */
    ghost predicate ValidBut(v: nat)
      reads this
    {
      IntactBut(v) && Owes(0)
    }

    ghost predicate Intact()
      reads this`heap, this`vecs, this`brk
    {
      Sound(heap, vecs, trivialDtor, {}) && forall p :: p in heap ==> p < brk
    }

    ghost predicate IntactBut(v: nat)
      reads this`heap, this`vecs, this`brk
    {
      Sound(heap, vecs, trivialDtor, {v}) && forall p :: p in heap ==> p < brk
    }

    /** The elements that were constructed, are not destroyed, and are in no buffer. */
    ghost function Outside(): int
      reads this`heap, this`brk, this`constructed, this`destroyed
    {
      constructed - destroyed - LiveBelow(heap, brk)
    }

    /** n elements outside the buffers are still to be destroyed, if their destruction means anything. */
    ghost predicate Owes(n: int)
      reads this`heap, this`brk, this`constructed, this`destroyed
    {
      trivialDtor || Outside() == n
    }

    /** What has been constructed and destroyed, if that is to be kept account of. */
    ghost predicate Tallied(constructions: int, destructions: int)
      reads this`constructed, this`destroyed
    {
      trivialDtor || (constructed == constructions && destroyed == destructions)
    }

    lemma LiveTyped(s: seq<Slot<T>>, count: nat, lo: nat, hi: nat)
      requires Typed(s, count, lo, hi, trivialDtor)
      ensures trivialDtor || LiveCount(s) == count - (hi - lo)
    {
      if !trivialDtor { TypedCount(s, count, lo, hi); }
    }

    function Slots(v: nat): seq<Slot<T>>
      requires v in vecs
      reads this`heap, this`vecs
    {
      SlotsOf(heap, vecs[v])
    }

    function Capacity(v: nat): nat
      requires v in vecs
      reads this`heap, this`vecs
    {
      |Slots(v)|
    }

    ghost function Contents(v: nat): (s: seq<Slot<T>>)
      requires Intact() && v in vecs
      reads this`heap, this`vecs, this`brk
      ensures AllLive(s) && |s| == vecs[v].count
    {
      assert Typed(Slots(v), vecs[v].count, 0, 0, trivialDtor);
      Slots(v)[..vecs[v].count]
    }

    ghost predicate OnlyOwner(v: nat)
      requires v in vecs
      reads this`heap, this`vecs
    {
      vecs[v].storage.Some? ==> vecs[v].storage.value in heap && heap[vecs[v].storage.value].refs == 1
    }

    /** The elements that are destroyed if v lets go of its storage. */
    ghost function Owned(v: nat): nat
      requires v in vecs
      reads this`heap, this`vecs
    {
      if OnlyOwner(v) then vecs[v].count else 0
    }

    /** The elements that are copied if v is to have storage of its own. */
    ghost function Shared(v: nat): nat
      requires v in vecs
      reads this`heap, this`vecs
    {
      if OnlyOwner(v) then 0 else vecs[v].count
    }

    /** What growing by amount copies, and destroys. */
    ghost function GrowCopies(v: nat, amount: nat): nat
      requires v in vecs
      reads this`heap, this`vecs
    {
      if Capacity(v) < vecs[v].count + amount then vecs[v].count else Shared(v)
    }

    ghost function GrowDestroys(v: nat, amount: nat): nat
      requires v in vecs
      reads this`heap, this`vecs
    {
      if Capacity(v) < vecs[v].count + amount then Owned(v) else 0
    }

    /** What removing amount elements copies, and destroys. */
    ghost function ShrinkCopies(v: nat, amount: nat): int
      requires v in vecs
      reads this`heap, this`vecs
    {
      if vecs[v].count - amount < Capacity(v) / 2 then vecs[v].count - amount else Shared(v)
    }

    ghost function ShrinkDestroys(v: nat, amount: nat): nat
      requires v in vecs
      reads this`heap, this`vecs
    {
      if vecs[v].count - amount < Capacity(v) / 2 then Owned(v) else amount
    }

    constructor (trivialCopy: bool, trivialDtor: bool)
      ensures Valid() && vecs == map[] && heap == map[] && copied == constructed == destroyed == 0
    {
      this.trivialCopy, this.trivialDtor := trivialCopy, trivialDtor;
      heap, vecs, brk, copied := map[], map[], 0, 0;
      constructed, destroyed := 0, 0;
    }

    /** Once no vector has storage, there is no buffer, and every element that was constructed was destroyed. */
    lemma AllDestroyed()
      requires Valid() && forall v :: v in vecs ==> vecs[v].storage.None?
      ensures heap == map[] && (trivialDtor || constructed == destroyed)
    {
      HeldIsAlive(heap, vecs, trivialDtor, {});
      assert heap == map[];
      NoBufferNoElement(heap, brk);
    }

    // ----- every construction and every destruction

    /** _do_copy(), _do_splat() and _do_construct(). */
    method DoCopy(dest: seq<Slot<T>>, at: nat, src: seq<Slot<T>>) returns (r: seq<Slot<T>>)
      requires at + |src| <= |dest| && AllLive(src) && Vacant(dest[at..at + |src|], trivialDtor)
      modifies this`constructed
      ensures r == Construct(dest, at, src, trivialDtor) && constructed == old(constructed) + |src|
    {
      r := Construct(dest, at, src, trivialDtor);
      constructed := constructed + |src|;
    }

    /** _do_destroy(). */
    method DoDestroy(s: seq<Slot<T>>, at: nat, n: nat) returns (r: seq<Slot<T>>)
      requires at + n <= |s| && AllLive(s[at..at + n])
      modifies this`destroyed
      ensures r == Destroy(s, at, n, trivialDtor) && destroyed == old(destroyed) + n
    {
      r := Destroy(s, at, n, trivialDtor);
      destroyed := destroyed + n;
    }

    /** Destroy one element and construct another in its place. */
    method Overwrite(from: seq<Slot<T>>, at: nat, item: Slot<T>) returns (r: seq<Slot<T>>)
      requires at < |from| && from[at].Live? && item.Live?
      modifies this`constructed, this`destroyed
      ensures r == from[at := item] && constructed == old(constructed) + 1 && destroyed == old(destroyed) + 1
    {
      r := DoDestroy(from, at, 1);
      r := DoCopy(r, at, [item]);
    }

    // ----- SharedBuffer

    method Dealloc(p: nat)
      requires p in heap && heap[p].refs == 0 && Vacant(heap[p].slots, trivialDtor)
      modifies this`heap
      ensures heap == old(heap) - {p}
    {
      heap := heap - {p};
    }

    /** The last release destroys the elements before it frees the buffer. */
    method DestroyLast(p: nat, count: nat)
      requires p in heap && p < brk && Typed(heap[p].slots, count, 0, 0, trivialDtor)
      modifies this`heap, this`destroyed
      ensures heap == old(heap) - {p} && destroyed == old(destroyed) + count
      ensures trivialDtor || Outside() == old(Outside())
    {
      ghost var was := heap;
      LiveTyped(heap[p].slots, count, 0, 0);
      var slots := DoDestroy(heap[p].slots, 0, count);
      heap := heap[p := Buffer(0, slots)];
      Dealloc(p);
      assert heap == was - {p};
      LiveBelowChange(was, heap, p, brk);
    }

    /** release_storage(); mStorage, which the callers then overwrite, is cleared at once. */
    method ReleaseStorage(v: nat)
      requires Intact() && v in vecs
      modifies this`heap, this`vecs, this`destroyed
      ensures Intact() && vecs == old(vecs)[v := Vec(None, 0)]
      ensures heap == match old(vecs)[v].storage case None => old(heap) case Some(p) => Released(old(heap), p)
      ensures OthersKept(old(heap), old(vecs), heap, vecs, v)
      ensures destroyed == old(destroyed + Owned(v)) && (trivialDtor || Outside() == old(Outside()))
    {
      if vecs[v].storage.Some? {
        var p := vecs[v].storage.value;
        ReleaseSound(heap, vecs, trivialDtor, v);
        ghost var heap', vecs' := Released(heap, p), vecs[v := Vec(None, 0)];
        if heap[p].refs == 1 {
          assert v !in {};
          DestroyLast(p, vecs[v].count);
        } else {
          LiveBelowChange(heap, heap', p, brk);
          heap := heap[p := heap[p].(refs := heap[p].refs - 1)];
        }
        vecs := vecs[v := Vec(None, 0)];
        assert heap == heap' && vecs == vecs';
      } else {
        assert Pointed(heap, vecs[v]);
        assert vecs == vecs[v := Vec(None, 0)];
      }
    }

    /** alloc(), with what the caller has put into the new buffer by the time it is stored. */
    method Install(v: nat, slots: seq<Slot<T>>, count: nat)
      requires Intact() && v in vecs && vecs[v].storage.None?
      modifies this`heap, this`vecs, this`brk
      ensures IntactBut(v) && (Typed(slots, count, 0, 0, trivialDtor) ==> Intact())
      ensures OthersKept(old(heap), old(vecs), heap, vecs, v)
      ensures vecs[v].storage.Some? && vecs[v].count == count && Slots(v) == slots && OnlyOwner(v)
      ensures Outside() == old(Outside()) - LiveCount(slots)
    {
      InstallSound(heap, vecs, trivialDtor, v, brk, slots, count);
      LiveBelowChange(heap, heap[brk := Buffer(1, slots)], brk, brk);
      heap := heap[brk := Buffer(1, slots)];
      vecs := vecs[v := Vec(Some(brk), count)];
      brk := brk + 1;
    }

    /** release_storage(); mStorage = area; mCount = count. */
    method TakeStorage(v: nat, area: seq<Slot<T>>, count: nat)
      requires Intact() && v in vecs
      modifies this`heap, this`vecs, this`brk, this`destroyed
      ensures IntactBut(v) && (Typed(area, count, 0, 0, trivialDtor) ==> Intact())
      ensures OthersKept(old(heap), old(vecs), heap, vecs, v)
      ensures vecs[v].storage.Some? && vecs[v].count == count && Slots(v) == area && OnlyOwner(v)
      ensures destroyed == old(destroyed + Owned(v)) && (trivialDtor || Outside() == old(Outside()) - LiveCount(area))
    {
      ReleaseStorage(v);
      Install(v, area, count);
    }

    /** A write through v's own buffer. */
    method Write(v: nat, slots: seq<Slot<T>>, count: nat)
      requires IntactBut(v) && v in vecs && vecs[v].storage.Some? && OnlyOwner(v)
      modifies this`heap, this`vecs
      ensures IntactBut(v) && (Typed(slots, count, 0, 0, trivialDtor) ==> Intact())
      ensures OthersKept(old(heap), old(vecs), heap, vecs, v)
      ensures vecs[v] == Vec(old(vecs)[v].storage, count) && Slots(v) == slots && OnlyOwner(v)
      ensures Outside() == old(Outside() + LiveCount(Slots(v))) - LiveCount(slots)
    {
      WriteSound(heap, vecs, trivialDtor, v, slots, count);
      var p := vecs[v].storage.value;
      LiveBelowChange(heap, heap[p := Buffer(1, slots)], p, brk);
      heap := heap[p := Buffer(1, slots)];
      vecs := vecs[v := Vec(Some(p), count)];
    }

    /** editResize(), with the count that the caller then stores. */
    method EditResize(v: nat, n: nat, count: nat)
      requires Valid() && v in vecs && vecs[v].storage.Some? && trivialDtor
      modifies this`heap, this`vecs, this`brk, this`destroyed
      ensures ValidBut(v) && (Typed(Resized(old(Slots(v)), n), count, 0, 0, trivialDtor) ==> Valid())
      ensures OthersKept(old(heap), old(vecs), heap, vecs, v)
      ensures vecs[v].storage.Some? && vecs[v].count == count && Slots(v) == Resized(old(Slots(v)), n) && OnlyOwner(v)
    {
      var slots := Resized(Slots(v), n);
      if heap[vecs[v].storage.value].refs == 1 {
        Write(v, slots, count);
      } else {
        TakeStorage(v, slots, count);
      }
    }

    // ----- VectorImpl

    /** editArrayImpl(): v becomes the sole owner of its elements; if it is, nothing happens. */
    method EditArray(v: nat)
      requires Valid() && v in vecs
      modifies this`heap, this`vecs, this`brk, this`constructed, this`destroyed
      ensures Valid() && OthersKept(old(heap), old(vecs), heap, vecs, v) && OnlyOwner(v)
      ensures Contents(v) == old(Contents(v)) && Capacity(v) == old(Capacity(v))
      ensures vecs[v].storage.Some? <==> old(vecs)[v].storage.Some?
      ensures old(OnlyOwner(v)) ==> heap == old(heap) && vecs == old(vecs)
      ensures constructed == old(constructed + Shared(v)) && destroyed == old(destroyed)
    {
      if vecs[v].storage.Some? && heap[vecs[v].storage.value].refs != 1 {
        var count := vecs[v].count;
        assert Typed(Slots(v), count, 0, 0, trivialDtor);
        var editable := DoCopy(RawSlots(Capacity(v)), 0, Slots(v)[..count]);
        LiveTyped(editable, count, 0, 0);
        TakeStorage(v, editable, count);
      }
    }

    /** The constructor of an empty vector. */
    method New(v: nat)
      requires Valid() && v !in vecs
      modifies this`vecs
      ensures Valid() && OthersKept(heap, old(vecs), heap, vecs, v)
      ensures vecs == old(vecs)[v := Vec(None, 0)] && Contents(v) == []
    {
      CountedUpdate(heap, vecs, heap, v, Vec(None, 0));
      SoundUpdate(heap, vecs, trivialDtor, heap, v, Vec(None, 0));
      vecs := vecs[v := Vec(None, 0)];
    }

    /** A vector that shares rhs's buffer: the copy constructor. */
    method CopyConstruct(v: nat, rhs: nat)
      requires Valid() && rhs in vecs && v !in vecs
      modifies this`heap, this`vecs
      ensures Valid() && OthersKept(old(heap), old(vecs), heap, vecs, v)
      ensures vecs[v] == vecs[rhs] && Contents(v) == old(Contents(rhs))
    {
      Acquire(v, rhs);
    }

    method Acquire(v: nat, rhs: nat)
      requires Valid() && rhs in vecs && v != rhs && (v in vecs ==> vecs[v].storage.None?)
      modifies this`heap, this`vecs
      ensures Valid() && OthersKept(old(heap), old(vecs), heap, vecs, v)
      ensures vecs[v] == old(vecs)[rhs] && Slots(v) == old(Slots(rhs))
    {
      ShareSound(heap, vecs, trivialDtor, v, rhs);
      AcquiredLives(heap, vecs[rhs], brk);
      ghost var heap' := Acquired(heap, vecs[rhs]);
      if vecs[rhs].storage.Some? {
        var p := vecs[rhs].storage.value;
        heap := heap[p := heap[p].(refs := heap[p].refs + 1)];
      }
      assert heap == heap';
      vecs := vecs[v := vecs[rhs]];
    }

    /** operator=: an empty rhs is not shared. */
    method Assign(v: nat, rhs: nat)
      requires Valid() && v in vecs && rhs in vecs
      modifies this`heap, this`vecs, this`destroyed
      ensures Valid() && OthersKept(old(heap), old(vecs), heap, vecs, v)
      ensures Contents(v) == old(Contents(rhs)) && destroyed == old(destroyed + if v == rhs then 0 else Owned(v))
      ensures v != rhs ==> vecs[v] == if old(vecs)[rhs].count != 0 then old(vecs)[rhs] else Vec(None, 0)
    {
      if v != rhs {
        ReleaseStorage(v);
        if vecs[rhs].count != 0 {
          Acquire(v, rhs);
        }
      }
    }

    /** finish_vector(). */
    method Finish(v: nat)
      requires Valid() && v in vecs
      modifies this`heap, this`vecs, this`destroyed
      ensures Valid() && OthersKept(old(heap), old(vecs), heap, vecs, v) && vecs[v] == Vec(None, 0)
      ensures forall p :: p in heap <==> p in old(heap) && !(old(vecs)[v].storage == Some(p) && old(heap)[p].refs == 1)
      ensures destroyed == old(destroyed + Owned(v))
    {
      ReleaseStorage(v);
    }

    /** _grow(): a gap of vacant slots is opened at where. */
    method Grow(v: nat, where: nat, amount: nat) returns (ok: bool)
      requires Valid() && v in vecs && where <= vecs[v].count
      modifies this`heap, this`vecs, this`brk, this`copied, this`constructed, this`destroyed
      ensures ValidBut(v) && OthersKept(old(heap), old(vecs), heap, vecs, v) && OnlyOwner(v)
      ensures vecs[v].count == old(vecs)[v].count + amount
      ensures Tallied(old(constructed + GrowCopies(v, amount)), old(destroyed + GrowDestroys(v, amount)))
      ensures Capacity(v) == if old(Capacity(v)) < vecs[v].count then Grown(vecs[v].count) else old(Capacity(v))
      ensures copied == old(copied) + if old(Capacity(v)) < vecs[v].count then old(vecs)[v].count else 0
      ensures ok <==> where < Capacity(v)
      ensures old(OnlyOwner(v)) && vecs[v].count <= old(Capacity(v)) ==> vecs[v].storage == old(vecs)[v].storage
      ensures Opened(old(Slots(v)), Slots(v), old(vecs)[v].count, where, amount)
    {
      if Capacity(v) < vecs[v].count + amount {
        Outgrow(v, where, amount);
      } else {
        MoveUp(v, where, amount);
      }
      ok := where < Capacity(v);
    }

    /** A gap of vacant slots, and the elements on both sides of it. */
    ghost predicate Opened(from: seq<Slot<T>>, to: seq<Slot<T>>, count: nat, where: nat, amount: nat) {
      && where <= count <= |from|
      && Typed(to, count + amount, where, where + amount, trivialDtor)
      && to[..where] == from[..where] && to[where + amount..count + amount] == from[where..count]
    }

    /** The two copies of _grow() into its new buffer. */
    method GrownArray(from: seq<Slot<T>>, count: nat, where: nat, amount: nat, capacity: nat) returns (r: seq<Slot<T>>)
      requires Typed(from, count, 0, 0, trivialDtor) && where <= count && count + amount <= capacity
      modifies this`constructed
      ensures |r| == capacity && Opened(from, r, count, where, amount) && constructed == old(constructed) + count
    {
      r := DoCopy(RawSlots(capacity), 0, from[..where]);
      r := DoCopy(r, where + amount, from[where..count]);
    }

    /** The reallocating half of _grow(). */
    method Outgrow(v: nat, where: nat, amount: nat)
      requires Valid() && v in vecs && where <= vecs[v].count && Capacity(v) < vecs[v].count + amount
      modifies this`heap, this`vecs, this`brk, this`copied, this`constructed, this`destroyed
      ensures ValidBut(v) && OthersKept(old(heap), old(vecs), heap, vecs, v) && OnlyOwner(v)
      ensures vecs[v].count == old(vecs)[v].count + amount
      ensures Capacity(v) == Grown(vecs[v].count) && copied == old(copied) + old(vecs)[v].count
      ensures Tallied(old(constructed) + old(vecs)[v].count, old(destroyed + Owned(v)))
      ensures Opened(old(Slots(v)), Slots(v), old(vecs)[v].count, where, amount)
    {
      var count := vecs[v].count;
      var newSize := count + amount;
      var newCapacity := Grown(newSize);
      assert Typed(Slots(v), count, 0, 0, trivialDtor);
      copied := copied + count;
      if vecs[v].storage.Some? && count == where && trivialCopy && trivialDtor {
        EditResize(v, newCapacity, newSize);
      } else {
        Reallocate(v, where, amount, newCapacity);
      }
    }

    method Reallocate(v: nat, where: nat, amount: nat, capacity: nat)
      requires Valid() && v in vecs && where <= vecs[v].count && vecs[v].count + amount <= capacity
      requires Typed(Slots(v), vecs[v].count, 0, 0, trivialDtor)
      modifies this`heap, this`vecs, this`brk, this`constructed, this`destroyed
      ensures ValidBut(v) && OthersKept(old(heap), old(vecs), heap, vecs, v) && OnlyOwner(v)
      ensures vecs[v].count == old(vecs)[v].count + amount && Capacity(v) == capacity
      ensures constructed == old(constructed) + old(vecs)[v].count && destroyed == old(destroyed + Owned(v))
      ensures Opened(old(Slots(v)), Slots(v), old(vecs)[v].count, where, amount)
    {
      var newSize := vecs[v].count + amount;
      var area := GrownArray(Slots(v), vecs[v].count, where, amount, capacity);
      LiveTyped(area, newSize, where, where + amount);
      TakeStorage(v, area, newSize);
    }

    /** The in-place half of _grow(). */
    method MoveUp(v: nat, where: nat, amount: nat)
      requires Valid() && v in vecs && where <= vecs[v].count && vecs[v].count + amount <= Capacity(v)
      modifies this`heap, this`vecs, this`brk, this`constructed, this`destroyed
      ensures ValidBut(v) && OthersKept(old(heap), old(vecs), heap, vecs, v) && OnlyOwner(v)
      ensures vecs[v].count == old(vecs)[v].count + amount
      ensures Capacity(v) == old(Capacity(v)) && Tallied(old(constructed + Shared(v)), old(destroyed))
      ensures old(OnlyOwner(v)) ==> vecs[v].storage == old(vecs)[v].storage
      ensures Opened(old(Slots(v)), Slots(v), old(vecs)[v].count, where, amount)
    {
      ghost var was, count := Slots(v), vecs[v].count;
      EditArray(v);
      if vecs[v].storage.Some? {
        var slots := MovedUp(Slots(v), vecs[v].count, where, amount);
        SameOpening(was, Slots(v), slots, count, where, amount);
        LiveTyped(Slots(v), count, 0, 0);
        LiveTyped(slots, count + amount, where, where + amount);
        Write(v, slots, vecs[v].count + amount);
      }
    }

    lemma SameOpening(was: seq<Slot<T>>, from: seq<Slot<T>>, to: seq<Slot<T>>, count: nat, where: nat, amount: nat)
      requires Opened(from, to, count, where, amount) && |was| == |from| && was[..count] == from[..count]
      ensures Opened(was, to, count, where, amount)
    {
      assert was[..where] == was[..count][..where] && was[where..count] == was[..count][where..];
      assert from[..where] == from[..count][..where] && from[where..count] == from[..count][where..];
    }

    function MovedUp(from: seq<Slot<T>>, count: nat, where: nat, amount: nat): (r: seq<Slot<T>>)
      requires Typed(from, count, 0, 0, trivialDtor) && where <= count && count + amount <= |from|
      ensures |r| == |from| && Opened(from, r, count, where, amount)
    {
      if where != count then Move(from, where + amount, where, count - where, trivialDtor) else from
    }

    /** The elements that fill a gap. */
    method Fill(v: nat, where: nat, items: seq<Slot<T>>)
      requires ValidBut(v) && v in vecs && OnlyOwner(v) && vecs[v].storage.Some? && AllLive(items)
      requires where + |items| <= vecs[v].count && Typed(Slots(v), vecs[v].count, where, where + |items|, trivialDtor)
      modifies this`heap, this`vecs, this`constructed
      ensures Valid() && OthersKept(old(heap), old(vecs), heap, vecs, v)
      ensures vecs[v] == old(vecs)[v] && Capacity(v) == old(Capacity(v)) && OnlyOwner(v)
      ensures Contents(v) == old(Slots(v))[..where] + items + old(Slots(v))[where + |items|..vecs[v].count]
      ensures constructed == old(constructed) + |items|
    {
      var count := vecs[v].count;
      var slots := DoCopy(Slots(v), where, items);
      Filled(Slots(v), slots, count, where, items);
      LiveTyped(Slots(v), count, where, where + |items|);
      LiveTyped(slots, count, 0, 0);
      Write(v, slots, count);
    }

    lemma Filled(from: seq<Slot<T>>, to: seq<Slot<T>>, count: nat, where: nat, items: seq<Slot<T>>)
      requires Typed(from, count, where, where + |items|, trivialDtor) && AllLive(items)
      requires to == Construct(from, where, items, trivialDtor)
      ensures Typed(to, count, 0, 0, trivialDtor)
      ensures to[..count] == from[..where] + items + from[where + |items|..count]
    {
      assert to == from[..where] + items + from[where + |items|..];
    }

    /** insertAt() and insertArrayAt() of items from outside the vector. */
    method Insert(v: nat, items: seq<T>, index: nat) returns (r: Status)
      requires Valid() && v in vecs
      modifies this`heap, this`vecs, this`brk, this`copied, this`constructed, this`destroyed
      ensures Valid() && OthersKept(old(heap), old(vecs), heap, vecs, v)
      ensures r == if index > old(vecs)[v].count then BadIndex
                   else if index < Capacity(v) then Index(index) else NoMemory
      ensures r == NoMemory ==> items == []
      ensures r == BadIndex ==> heap == old(heap) && vecs == old(vecs) && copied == old(copied)
      ensures r == BadIndex ==> constructed == old(constructed) && destroyed == old(destroyed)
      ensures r != BadIndex ==>
        && Contents(v) == old(Contents(v))[..index] + Lives(items) + old(Contents(v))[index..]
        && OnlyOwner(v)
        && Capacity(v) == (if old(Capacity(v)) < vecs[v].count then Grown(vecs[v].count) else old(Capacity(v)))
        && copied == old(copied) + (if old(Capacity(v)) < vecs[v].count then old(vecs)[v].count else 0)
        && Tallied(old(constructed + GrowCopies(v, |items|)) + |items|, old(destroyed + GrowDestroys(v, |items|)))
    {
      if index > vecs[v].count { return BadIndex; }
      var ok := Splice(v, Lives(items), index, Contents(v)[..index] + Lives(items) + Contents(v)[index..]);
      r := if ok then Index(index) else NoMemory;
    }

    /** Grow, then fill. */
    method Splice(v: nat, items: seq<Slot<T>>, index: nat, ghost after: seq<Slot<T>>) returns (ok: bool)
      requires Valid() && v in vecs && index <= vecs[v].count && AllLive(items)
      requires after == Contents(v)[..index] + items + Contents(v)[index..]
      modifies this`heap, this`vecs, this`brk, this`copied, this`constructed, this`destroyed
      ensures Valid() && OthersKept(old(heap), old(vecs), heap, vecs, v) && OnlyOwner(v)
      ensures Tallied(old(constructed + GrowCopies(v, |items|)) + |items|, old(destroyed + GrowDestroys(v, |items|)))
      ensures ok <==> index < Capacity(v)
      ensures Contents(v) == after
      ensures Capacity(v) == if old(Capacity(v)) < vecs[v].count then Grown(vecs[v].count) else old(Capacity(v))
      ensures copied == old(copied) + if old(Capacity(v)) < vecs[v].count then old(vecs)[v].count else 0
    {
      ghost var heap0, vecs0 := heap, vecs;
      ok := OpenGap(v, items, index, after);
      CloseGap(v, index, items, ok, after, heap0, vecs0);
    }

    method OpenGap(v: nat, items: seq<Slot<T>>, index: nat, ghost after: seq<Slot<T>>) returns (ok: bool)
      requires Valid() && v in vecs && index <= vecs[v].count
      requires after == Contents(v)[..index] + items + Contents(v)[index..]
      modifies this`heap, this`vecs, this`brk, this`copied, this`constructed, this`destroyed
      ensures ValidBut(v) && OthersKept(old(heap), old(vecs), heap, vecs, v) && OnlyOwner(v)
      ensures Tallied(old(constructed + GrowCopies(v, |items|)), old(destroyed + GrowDestroys(v, |items|)))
      ensures ok <==> index < Capacity(v)
      ensures vecs[v].count == old(vecs)[v].count + |items| && Fills(Slots(v), vecs[v].count, index, items, after)
      ensures Capacity(v) == if old(Capacity(v)) < vecs[v].count then Grown(vecs[v].count) else old(Capacity(v))
      ensures copied == old(copied) + if old(Capacity(v)) < vecs[v].count then old(vecs)[v].count else 0
    {
      ghost var was, from := Contents(v), Slots(v);
      ok := Grow(v, index, |items|);
      OpenedFills(from, Slots(v), was, index, items, after);
    }

    /** The second half of an insertion that began in heap0 and vecs0. */
    method CloseGap(v: nat, index: nat, items: seq<Slot<T>>, ok: bool, ghost after: seq<Slot<T>>,
        ghost heap0: Heap<T>, ghost vecs0: Vecs)
      requires ValidBut(v) && v in vecs && OnlyOwner(v) && AllLive(items) && (ok <==> index < Capacity(v))
      requires v in vecs0 && OthersKept(heap0, vecs0, heap, vecs, v)
      requires index + |items| <= vecs[v].count && Fills(Slots(v), vecs[v].count, index, items, after)
      modifies this`heap, this`vecs, this`constructed
      ensures constructed == old(constructed) + |items|
      ensures Valid() && OthersKept(heap0, vecs0, heap, vecs, v) && OnlyOwner(v)
      ensures vecs[v] == old(vecs)[v] && Capacity(v) == old(Capacity(v))
      ensures Contents(v) == after
    {
      ghost var heap1, vecs1 := heap, vecs;
      FillGap(v, index, items, ok, after);
      KeptTwice(heap0, vecs0, heap1, vecs1, heap, vecs, v);
    }

    /** What the callers of _grow() do with its result. */
    method FillGap(v: nat, index: nat, items: seq<Slot<T>>, ok: bool, ghost after: seq<Slot<T>>)
      requires ValidBut(v) && v in vecs && OnlyOwner(v) && AllLive(items) && (ok <==> index < Capacity(v))
      requires index + |items| <= vecs[v].count && Fills(Slots(v), vecs[v].count, index, items, after)
      modifies this`heap, this`vecs, this`constructed
      ensures constructed == old(constructed) + |items|
      ensures Valid() && OthersKept(old(heap), old(vecs), heap, vecs, v)
      ensures vecs[v] == old(vecs)[v] && Capacity(v) == old(Capacity(v)) && OnlyOwner(v)
      ensures Contents(v) == after
    {
      if ok {
        Fill(v, index, items);
      } else {
        assert Typed(Slots(v), vecs[v].count, 0, 0, trivialDtor);
      }
    }

    /** The items in the gap make up `after`. */
    ghost predicate Fills(slots: seq<Slot<T>>, count: nat, index: nat, items: seq<Slot<T>>, after: seq<Slot<T>>)
      requires index + |items| <= count
    {
      && Typed(slots, count, index, index + |items|, trivialDtor)
      && after == slots[..index] + items + slots[index + |items|..count]
      && (items == [] ==> slots[..count] == after)
    }

    lemma OpenedFills(from: seq<Slot<T>>, to: seq<Slot<T>>, was: seq<Slot<T>>, where: nat, items: seq<Slot<T>>,
        after: seq<Slot<T>>)
      requires Opened(from, to, |was|, where, |items|) && was == from[..|was|]
      requires after == was[..where] + items + was[where..]
      ensures Fills(to, |was| + |items|, where, items, after)
    {
      assert to[..where] == was[..where] && to[where + |items|..|was| + |items|] == was[where..];
      if items == [] {
        assert to[..|was|] == to[..where] + items + to[where..|was|];
      }
    }

    /** May w's elements be inserted into v? The source is read after the growth, at the address taken before it. That
        is w's storage still, unless v is w, owns it alone, and has to move it or the elements in it. */
    ghost predicate SourceStays(v: nat, w: nat, index: nat)
      requires Valid() && v in vecs && w in vecs
      reads this
    {
      || w != v || !OnlyOwner(v) || vecs[v].storage.None?
      || (index == vecs[v].count && 2 * vecs[v].count <= Capacity(v))
    }

    /** insertVectorAt() and appendVector(). */
    method InsertVectorAt(v: nat, w: nat, index: nat) returns (r: Status)
      requires Valid() && v in vecs && w in vecs
      requires index <= vecs[v].count ==> SourceStays(v, w, index)
      modifies this`heap, this`vecs, this`brk, this`copied, this`constructed, this`destroyed
      ensures Valid() && OthersKept(old(heap), old(vecs), heap, vecs, v)
      ensures r == if index > old(vecs)[v].count then BadIndex
                   else if index < Capacity(v) then Index(index) else NoMemory
      ensures r == BadIndex ==> heap == old(heap) && vecs == old(vecs)
      ensures r == BadIndex ==> constructed == old(constructed) && destroyed == old(destroyed)
      ensures r != BadIndex ==>
        Tallied(old(constructed + GrowCopies(v, vecs[w].count) + vecs[w].count),
        old(destroyed + GrowDestroys(v, vecs[w].count)))
      ensures r != BadIndex ==> Contents(v) == old(Contents(v))[..index] + old(Contents(w)) + old(Contents(v))[index..]
    {
      if index > vecs[v].count { return BadIndex; }
      var ok := SpliceVector(v, w, index, Contents(v)[..index] + Contents(w) + Contents(v)[index..]);
      r := if ok then Index(index) else NoMemory;
    }

    method SpliceVector(v: nat, w: nat, index: nat, ghost after: seq<Slot<T>>) returns (ok: bool)
      requires Valid() && v in vecs && w in vecs && index <= vecs[v].count && SourceStays(v, w, index)
      requires after == Contents(v)[..index] + Contents(w) + Contents(v)[index..]
      modifies this`heap, this`vecs, this`brk, this`copied, this`constructed, this`destroyed
      ensures Valid() && OthersKept(old(heap), old(vecs), heap, vecs, v)
      ensures Tallied(old(constructed + GrowCopies(v, vecs[w].count) + vecs[w].count),
        old(destroyed + GrowDestroys(v, vecs[w].count)))
      ensures ok <==> index < Capacity(v)
      ensures Contents(v) == after
    {
      ghost var heap0, vecs0 := heap, vecs;
      var items;
      ok, items := OpenVectorGap(v, w, index, after);
      CloseGap(v, index, items, ok, after, heap0, vecs0);
    }

    method OpenVectorGap(v: nat, w: nat, index: nat, ghost after: seq<Slot<T>>) returns (ok: bool, items: seq<Slot<T>>)
      requires Valid() && v in vecs && w in vecs && index <= vecs[v].count && SourceStays(v, w, index)
      requires after == Contents(v)[..index] + Contents(w) + Contents(v)[index..]
      modifies this`heap, this`vecs, this`brk, this`copied, this`constructed, this`destroyed
      ensures ValidBut(v) && OthersKept(old(heap), old(vecs), heap, vecs, v) && OnlyOwner(v)
      ensures Tallied(old(constructed + GrowCopies(v, vecs[w].count)), old(destroyed + GrowDestroys(v, vecs[w].count)))
      ensures ok <==> index < Capacity(v)
      ensures AllLive(items) && |items| == old(vecs)[w].count && vecs[v].count == old(vecs)[v].count + |items|
      ensures Fills(Slots(v), vecs[v].count, index, items, after)
    {
      ghost var was, from := Contents(v), Slots(v);
      ok, items := GrowAndRead(v, w, index);
      OpenedFills(from, Slots(v), was, index, items, after);
    }

    /** The growth, and the read of the source at its old address. */
    method GrowAndRead(v: nat, w: nat, index: nat) returns (ok: bool, items: seq<Slot<T>>)
      requires Valid() && v in vecs && w in vecs && index <= vecs[v].count && SourceStays(v, w, index)
      modifies this`heap, this`vecs, this`brk, this`copied, this`constructed, this`destroyed
      ensures ValidBut(v) && OthersKept(old(heap), old(vecs), heap, vecs, v) && OnlyOwner(v)
      ensures Tallied(old(constructed + GrowCopies(v, vecs[w].count)), old(destroyed + GrowDestroys(v, vecs[w].count)))
      ensures items == old(Contents(w)) && vecs[v].count == old(vecs)[v].count + |items|
      ensures ok <==> index < Capacity(v)
      ensures Opened(old(Slots(v)), Slots(v), old(vecs)[v].count, index, |items|)
    {
      ghost var heap0, vecs0 := heap, vecs;
      var from, length := vecs[w].storage, vecs[w].count;
      ghost var survives := w != v || !OnlyOwner(v) || vecs[v].storage.None?;
      ok := Grow(v, index, length);
      if survives {
        SourceSurvives(heap0, vecs0, heap, vecs, trivialDtor, v, w);
      } else {
        assert Pointed(heap, vecs[v]) && Slots(v)[..length] == SlotsOf(heap0, vecs0[v])[..length];
      }
      items := if from.Some? then heap[from.value].slots[..length] else [];
    }

    /** push(). A vector that was filled by pushes alone goes on growing as Pushed says. */
    method Push(v: nat, item: T) returns (r: Status)
      requires Valid() && v in vecs
      modifies this`heap, this`vecs, this`brk, this`copied, this`constructed, this`destroyed
      ensures Valid() && OthersKept(old(heap), old(vecs), heap, vecs, v) && OnlyOwner(v)
      ensures r == Index(old(vecs)[v].count) && Contents(v) == old(Contents(v)) + [Live(item)]
      ensures old(Capacity(v)) == Pushed(old(vecs)[v].count).0 ==>
        && Capacity(v) == Pushed(vecs[v].count).0
        && copied - old(copied) == Pushed(vecs[v].count).1 - Pushed(old(vecs)[v].count).1
      ensures old(OnlyOwner(v)) ==>
        Tallied(old(constructed) + 1 + copied - old(copied), old(destroyed) + copied - old(copied))
    {
      ghost var was := Contents(v);
      r := Insert(v, [item], vecs[v].count);
      assert was[..|was|] + Lives([item]) + was[|was|..] == was + [Live(item)];
    }

    /** A vector that is filled by pushes: in all they copy, and so destroy, fewer than 3 elements for each of them. */
    method PushAll(v: nat, items: seq<T>)
      requires Valid() && v !in vecs
      modifies this`heap, this`vecs, this`brk, this`copied, this`constructed, this`destroyed
      ensures Valid() && OthersKept(old(heap), old(vecs), heap, vecs, v) && Contents(v) == Lives(items)
      ensures copied - old(copied) <= 3 * |items| && (items != [] ==> copied - old(copied) < 3 * |items|)
      ensures Tallied(old(constructed) + |items| + copied - old(copied), old(destroyed) + copied - old(copied))
    {
      New(v);
      for k := 0 to |items|
        invariant Filling(v, items, k, old(heap), old(vecs), old(copied), old(constructed), old(destroyed))
      {
        PushNext(v, items, k, old(heap), old(vecs), old(copied), old(constructed), old(destroyed));
      }
      assert items[..|items|] == items;
      PushesAreAmortised(|items|);
    }

    /** The first k items have been pushed onto v, which was then new. */
    ghost predicate Filling(v: nat, items: seq<T>, k: nat, heap0: Heap<T>, vecs0: Vecs, copied0: nat,
        constructed0: nat, destroyed0: nat)
      reads this
    {
      && k <= |items| && Valid() && v in vecs && OthersKept(heap0, vecs0, heap, vecs, v) && OnlyOwner(v)
      && Contents(v) == Lives(items[..k]) && Capacity(v) == Pushed(k).0 && copied == copied0 + Pushed(k).1
      && Tallied(constructed0 + k + copied - copied0, destroyed0 + copied - copied0)
    }

    method PushNext(v: nat, items: seq<T>, k: nat,
        ghost heap0: Heap<T>, ghost vecs0: Vecs, ghost copied0: nat, ghost constructed0: nat, ghost destroyed0: nat)
      requires k < |items| && Filling(v, items, k, heap0, vecs0, copied0, constructed0, destroyed0)
      modifies this`heap, this`vecs, this`brk, this`copied, this`constructed, this`destroyed
      ensures Filling(v, items, k + 1, heap0, vecs0, copied0, constructed0, destroyed0)
    {
      ghost var heap1, vecs1 := heap, vecs;
      assert vecs[v].count == |Contents(v)| == k;
      LivesStep(items, k);
      var _ := Push(v, items[k]);
      assert Contents(v) == Lives(items[..k + 1]);
      KeptTwice(heap0, vecs0, heap1, vecs1, heap, vecs, v);
    }

    /** _shrink(). */
    method Shrink(v: nat, where: nat, amount: nat)
      requires Valid() && v in vecs && where + amount <= vecs[v].count
      modifies this`heap, this`vecs, this`brk, this`constructed, this`destroyed
      ensures Valid() && OthersKept(old(heap), old(vecs), heap, vecs, v) && OnlyOwner(v)
      ensures Contents(v) == old(Contents(v))[..where] + old(Contents(v))[where + amount..]
      ensures Capacity(v) ==
        if vecs[v].storage.Some? && vecs[v].count < old(Capacity(v)) / 2 then Shrunk(vecs[v].count)
        else old(Capacity(v))
      ensures Tallied(old(constructed + ShrinkCopies(v, amount)), old(destroyed + ShrinkDestroys(v, amount)))
    {
      assert Pointed(heap, vecs[v]);
      if vecs[v].storage.Some? {
        if vecs[v].count - amount < Capacity(v) / 2 {
          ShrinkBuffer(v, where, amount);
        } else {
          MoveDown(v, where, amount);
        }
      }
    }

    /** What a removal leaves in front. */
    ghost predicate Closed(from: seq<Slot<T>>, to: seq<Slot<T>>, count: nat, where: nat, amount: nat) {
      && where + amount <= count <= |from|
      && Typed(to, count - amount, 0, 0, trivialDtor)
      && to[..count - amount] == from[..count][..where] + from[..count][where + amount..]
    }

    method ShrunkArray(from: seq<Slot<T>>, count: nat, where: nat, amount: nat, capacity: nat) returns (r: seq<Slot<T>>)
      requires Typed(from, count, 0, 0, trivialDtor) && where + amount <= count && count - amount <= capacity
      modifies this`constructed
      ensures |r| == capacity && Closed(from, r, count, where, amount)
      ensures constructed == old(constructed) + (count - amount)
    {
      r := DoCopy(RawSlots(capacity), 0, from[..where]);
      r := DoCopy(r, where, from[where + amount..count]);
    }

    method MovedDown(from: seq<Slot<T>>, count: nat, where: nat, amount: nat) returns (r: seq<Slot<T>>)
      requires Typed(from, count, 0, 0, trivialDtor) && where + amount <= count
      modifies this`destroyed
      ensures |r| == |from| && Closed(from, r, count, where, amount) && destroyed == old(destroyed) + amount
    {
      var s := DoDestroy(from, where, amount);
      r := if where != count - amount then Move(s, where, where + amount, count - amount - where, trivialDtor) else s;
      MoveCloses(from, s, r, count, where, amount);
    }

    lemma MoveCloses(from: seq<Slot<T>>, s: seq<Slot<T>>, r: seq<Slot<T>>, count: nat, where: nat, amount: nat)
      requires Typed(from, count, 0, 0, trivialDtor) && where + amount <= count
      requires s == Destroy(from, where, amount, trivialDtor)
      requires r ==
        if where != count - amount then Move(s, where, where + amount, count - amount - where, trivialDtor) else s
      ensures |r| == |from| && Closed(from, r, count, where, amount)
    {
      assert forall i :: where <= i < where + amount ==> trivialDtor || s[i].Raw?;
      assert forall i :: where + amount <= i < |s| ==> s[i] == from[i];
      forall k | 0 <= k < count - amount ensures r[k] == from[if k < where then k else k + amount] {
        if where <= k {
          assert r[where..count - amount][k - where] == s[where + amount..count][k - where];
        }
      }
      ClosedBy(from, r, count, where, amount);
    }

    lemma ClosedBy(from: seq<Slot<T>>, to: seq<Slot<T>>, count: nat, where: nat, amount: nat)
      requires where + amount <= count <= |from| == |to| && Typed(to, count - amount, 0, 0, trivialDtor)
      requires forall k :: 0 <= k < count - amount ==> to[k] == from[if k < where then k else k + amount]
      ensures Closed(from, to, count, where, amount)
    {
    }

    method ShrinkBuffer(v: nat, where: nat, amount: nat)
      requires Valid() && v in vecs && where + amount <= vecs[v].count && vecs[v].storage.Some?
      modifies this`heap, this`vecs, this`brk, this`constructed, this`destroyed
      ensures Valid() && OthersKept(old(heap), old(vecs), heap, vecs, v) && OnlyOwner(v)
      ensures Contents(v) == old(Contents(v))[..where] + old(Contents(v))[where + amount..]
      ensures vecs[v].storage.Some? && Capacity(v) == Shrunk(vecs[v].count)
      ensures vecs[v].count == old(vecs)[v].count - amount &&
        Tallied(old(constructed) + vecs[v].count, old(destroyed + Owned(v)))
    {
      var count := vecs[v].count;
      var newSize := count - amount;
      var newCapacity := Shrunk(newSize);
      assert Typed(Slots(v), count, 0, 0, trivialDtor);
      if where == newSize && trivialCopy && trivialDtor {
        assert Contents(v)[..where] + Contents(v)[where + amount..] == Resized(Slots(v), newCapacity)[..newSize];
        EditResize(v, newCapacity, newSize);
      } else {
        var area := ShrunkArray(Slots(v), count, where, amount, newCapacity);
        LiveTyped(area, newSize, 0, 0);
        TakeStorage(v, area, newSize);
      }
    }

    method MoveDown(v: nat, where: nat, amount: nat)
      requires Valid() && v in vecs && where + amount <= vecs[v].count && vecs[v].storage.Some?
      modifies this`heap, this`vecs, this`brk, this`constructed, this`destroyed
      ensures Valid() && OthersKept(old(heap), old(vecs), heap, vecs, v) && OnlyOwner(v)
      ensures Contents(v) == old(Contents(v))[..where] + old(Contents(v))[where + amount..]
      ensures vecs[v].storage.Some? && Capacity(v) == old(Capacity(v)) && vecs[v].count == old(vecs)[v].count - amount
      ensures Tallied(old(constructed + Shared(v)), old(destroyed) + amount)
    {
      ghost var heap0, vecs0 := heap, vecs;
      EditArray(v);
      ghost var heap1, vecs1 := heap, vecs;
      CloseUp(v, where, amount);
      KeptTwice(heap0, vecs0, heap1, vecs1, heap, vecs, v);
    }

    method CloseUp(v: nat, where: nat, amount: nat)
      requires Valid() && v in vecs && where + amount <= vecs[v].count && vecs[v].storage.Some? && OnlyOwner(v)
      modifies this`heap, this`vecs, this`destroyed
      ensures Valid() && OthersKept(old(heap), old(vecs), heap, vecs, v) && OnlyOwner(v)
      ensures Contents(v) == old(Contents(v))[..where] + old(Contents(v))[where + amount..]
      ensures vecs[v] == Vec(old(vecs)[v].storage, old(vecs)[v].count - amount) && Capacity(v) == old(Capacity(v))
      ensures destroyed == old(destroyed) + amount
    {
      var count := vecs[v].count;
      assert Typed(Slots(v), count, 0, 0, trivialDtor);
      var slots := MovedDown(Slots(v), count, where, amount);
      LiveTyped(Slots(v), count, 0, 0);
      LiveTyped(slots, count - amount, 0, 0);
      Write(v, slots, count - amount);
    }

    /** removeItemsAt(). */
    method RemoveItemsAt(v: nat, index: nat, count: nat) returns (r: Status)
      requires Valid() && v in vecs
      modifies this`heap, this`vecs, this`brk, this`constructed, this`destroyed
      ensures Valid() && OthersKept(old(heap), old(vecs), heap, vecs, v)
      ensures r == if index + count > old(vecs)[v].count then BadValue else Index(index)
      ensures r == BadValue ==> heap == old(heap) && vecs == old(vecs)
      ensures r == BadValue ==> constructed == old(constructed) && destroyed == old(destroyed)
      ensures r != BadValue ==>
        Tallied(old(constructed + ShrinkCopies(v, count)), old(destroyed + ShrinkDestroys(v, count)))
      ensures r != BadValue ==> Contents(v) == old(Contents(v))[..index] + old(Contents(v))[index + count..]
    {
      if index + count > vecs[v].count { return BadValue; }
      Shrink(v, index, count);
      r := Index(index);
    }

    /** replaceAt() by an item from outside the vector. */
    method ReplaceAt(v: nat, item: T, index: nat) returns (r: Status)
      requires Valid() && v in vecs
      modifies this`heap, this`vecs, this`brk, this`constructed, this`destroyed
      ensures Valid() && OthersKept(old(heap), old(vecs), heap, vecs, v)
      ensures r == if index >= old(vecs)[v].count then BadIndex else Index(index)
      ensures r == BadIndex ==> heap == old(heap) && vecs == old(vecs)
      ensures r == BadIndex ==> constructed == old(constructed) && destroyed == old(destroyed)
      ensures r != BadIndex ==> Contents(v) == old(Contents(v))[index := Live(item)] && OnlyOwner(v)
      ensures r != BadIndex ==> constructed == old(constructed + Shared(v)) + 1 && destroyed == old(destroyed) + 1
    {
      if index >= vecs[v].count { return BadIndex; }
      assert Pointed(heap, vecs[v]);
      ghost var was, heap0, vecs0 := Contents(v), heap, vecs;
      EditArray(v);
      ghost var heap1, vecs1 := heap, vecs;
      assert Typed(Slots(v), vecs[v].count, 0, 0, trivialDtor);
      var slots := Overwrite(Slots(v), index, Live(item));
      assert slots[..vecs[v].count] == was[index := Live(item)];
      LiveTyped(Slots(v), vecs[v].count, 0, 0);
      LiveTyped(slots, vecs[v].count, 0, 0);
      Write(v, slots, vecs[v].count);
      KeptTwice(heap0, vecs0, heap1, vecs1, heap, vecs, v);
      r := Index(index);
    }

    /** setCapacity(). */
    method SetCapacity(v: nat, n: nat) returns (capacity: nat)
      requires Valid() && v in vecs
      modifies this`heap, this`vecs, this`brk, this`constructed, this`destroyed
      ensures Valid() && OthersKept(old(heap), old(vecs), heap, vecs, v)
      ensures constructed == old(constructed) + (if n <= old(vecs)[v].count then 0 else old(vecs)[v].count)
      ensures destroyed == old(destroyed) + (if n <= old(vecs)[v].count then 0 else old(Owned(v)))
      ensures Contents(v) == old(Contents(v)) && capacity == Capacity(v)
      ensures capacity == if n <= old(vecs)[v].count then old(Capacity(v)) else n
    {
      var count := vecs[v].count;
      if n <= count { return Capacity(v); }
      assert Typed(Slots(v), count, 0, 0, trivialDtor);
      var area := ShrunkArray(Slots(v), count, count, 0, n);
      assert area[..count] == Slots(v)[..count];
      LiveTyped(area, count, 0, 0);
      TakeStorage(v, area, count);
      capacity := n;
    }

    /** The inner loop of sort(): the slots of greater elements are copied up by one. */
    method ShiftUp(area0: seq<Slot<T>>, temp: seq<Slot<T>>, i: nat, cmp: (T, T) -> int, ghost xs: seq<T>)
      returns (area: seq<Slot<T>>, next: nat)
      requires 1 <= i < |xs| <= |area0| && forall k :: 0 <= k < |xs| ==> area0[k] == Live(xs[k])
      requires temp == [Live(xs[i])] && cmp(xs[i - 1], xs[i]) > 0
      modifies this`constructed, this`destroyed
      ensures next < i && area == Shifted(area0, i, next - 1)
      ensures InsertInto(cmp, xs[..i], xs[i]) == xs[..next] + [xs[i]] + xs[next..i]
      ensures var passed := Passed(cmp, xs[..i], xs[i]);
        && passed == i - next
        && constructed == old(constructed) + passed && destroyed == old(destroyed) + passed
    {
      area, next := area0, i;
      var j, more := i - 1, true;
      assert area0 == Shifted(area0, i, i - 1);
      while more
        invariant -1 <= j < i && next == j + 1
        invariant more <==> j >= 0 && cmp(xs[j], xs[i]) > 0
        invariant forall k :: j < k < i ==> cmp(xs[k], xs[i]) > 0
        invariant area == Shifted(area0, i, j) && (more || next < i)
        invariant constructed == old(constructed) + (i - next) && destroyed == old(destroyed) + (i - next)
        decreases j
      {
        area := ShiftOne(area, area0, i, next, j);
        next, j := j, j - 1;
        more := j >= 0 && cmp(area[j].value, temp[0].value) > 0;
      }
      SiftsTo(cmp, xs, i, j);
    }

    /** One round of the inner loop: next gets a copy of the element below it. */
    method ShiftOne(area: seq<Slot<T>>, ghost area0: seq<Slot<T>>, ghost i: nat, next: nat, curr: nat)
      returns (r: seq<Slot<T>>)
      requires next == curr + 1 <= i < |area0| && area == Shifted(area0, i, curr)
      requires area0[curr].Live? && area0[next].Live?
      modifies this`constructed, this`destroyed
      ensures constructed == old(constructed) + 1 && destroyed == old(destroyed) + 1
      ensures r == Shifted(area0, i, curr - 1) && |r| == |area0|
      ensures curr > 0 ==> r[curr - 1] == area0[curr - 1]
    {
      ShiftStep(area0, i, curr);
      r := Overwrite(area, next, area[curr]);
      ShiftedAt(area0, i, curr - 1);
    }

    /** The element saved in temp goes down to its place, slot by slot. */
    method SiftDown(area0: seq<Slot<T>>, temp: seq<Slot<T>>, i: nat, cmp: (T, T) -> int, ghost xs: seq<T>)
      returns (area: seq<Slot<T>>)
      requires 1 <= i < |xs| <= |area0| && forall k :: 0 <= k < |xs| ==> area0[k] == Live(xs[k])
      requires temp == [Live(xs[i])] && cmp(xs[i - 1], xs[i]) > 0
      modifies this`constructed, this`destroyed
      ensures var passed := Passed(cmp, xs[..i], xs[i]);
        passed > 0 && constructed == old(constructed) + passed + 1 && destroyed == old(destroyed) + passed + 1
      ensures |area| == |area0| && area[i + 1..] == area0[i + 1..]
      ensures area[..i + 1] == Lives(InsertInto(cmp, xs[..i], xs[i]))
    {
      var next: nat;
      area, next := ShiftUp(area0, temp, i, cmp, xs);
      ShiftedAt(area0, i, next - 1);
      area := Overwrite(area, next, temp[0]);
      SiftedFront(area0, area, i, next - 1, xs);
    }

    lemma SiftedFront(area0: seq<Slot<T>>, area: seq<Slot<T>>, i: nat, j: int, xs: seq<T>)
      requires -1 <= j < i < |xs| <= |area0| && forall k :: 0 <= k < |xs| ==> area0[k] == Live(xs[k])
      requires area == Shifted(area0, i, j)[j + 1 := Live(xs[i])]
      ensures area[..i + 1] == Lives(xs[..j + 1] + [xs[i]] + xs[j + 1..i]) && area[i + 1..] == area0[i + 1..]
    {
    }

    /** The slots after those between j and i have moved up by one. */
    ghost function Shifted(s: seq<Slot<T>>, i: nat, j: int): seq<Slot<T>>
      requires -1 <= j < i < |s|
    {
      s[..j + 2] + s[j + 1..i] + s[i + 1..]
    }

    lemma ShiftedAt(s: seq<Slot<T>>, i: nat, j: int)
      requires -1 <= j < i < |s|
      ensures |Shifted(s, i, j)| == |s| && Shifted(s, i, j)[..j + 2] == s[..j + 2]
      ensures j >= 0 ==> Shifted(s, i, j)[j] == s[j]
      ensures Shifted(s, i, j)[j + 1] == s[j + 1] && Shifted(s, i, j)[j + 2..i + 1] == s[j + 1..i] &&
        Shifted(s, i, j)[i + 1..] == s[i + 1..]
    {
    }

    lemma ShiftStep(s: seq<Slot<T>>, i: nat, j: int)
      requires 0 <= j < i < |s|
      ensures |Shifted(s, i, j)| == |s| && Shifted(s, i, j)[j] == s[j] && Shifted(s, i, j)[j + 1] == s[j + 1]
      ensures Shifted(s, i, j)[j + 1 := s[j]] == Shifted(s, i, j - 1)
    {
    }

    lemma {:induction false} SiftsTo(cmp: (T, T) -> int, xs: seq<T>, i: nat, j: int)
      requires -1 <= j < i < |xs| && (forall k :: j < k < i ==> cmp(xs[k], xs[i]) > 0) &&
        (j >= 0 ==> cmp(xs[j], xs[i]) <= 0)
      ensures InsertInto(cmp, xs[..i], xs[i]) == xs[..j + 1] + [xs[i]] + xs[j + 1..i]
      ensures Passed(cmp, xs[..i], xs[i]) == i - (j + 1)
    {
      SiftsAlong(cmp, xs, xs[i], i, j);
      assert xs[..j + 1][..|xs[..j + 1]|] == xs[..j + 1];
    }

    lemma {:induction false} SiftsAlong(cmp: (T, T) -> int, xs: seq<T>, x: T, i: nat, j: int)
      requires -1 <= j < i <= |xs| && forall k :: j < k < i ==> cmp(xs[k], x) > 0
      ensures InsertInto(cmp, xs[..i], x) == InsertInto(cmp, xs[..j + 1], x) + xs[j + 1..i]
      ensures Passed(cmp, xs[..i], x) == Passed(cmp, xs[..j + 1], x) + (i - (j + 1))
      decreases i
    {
      if j + 1 < i {
        SiftsAlong(cmp, xs, x, i - 1, j);
        assert xs[..i][..i - 1] == xs[..i - 1] && xs[j + 1..i] == xs[j + 1..i - 1] + [xs[i - 1]];
      }
    }

    /** One round of sort(): the first that has to move something makes the storage private. */
    method SortStep(v: nat, i: nat, area0: seq<Slot<T>>, temp0: seq<Slot<T>>, cmp: (T, T) -> int, ghost xs: seq<T>)
      returns (area: seq<Slot<T>>, temp: seq<Slot<T>>, ghost ys: seq<T>)
      requires Intact() && v in vecs && 1 <= i < vecs[v].count && area0 == Slots(v) && Contents(v) == Lives(xs)
      requires Temporary(v, temp0)
      modifies this`heap, this`vecs, this`brk, this`constructed, this`destroyed
      ensures Intact() && OthersKept(old(heap), old(vecs), heap, vecs, v) && vecs[v].count == |xs|
      ensures area == Slots(v) && Contents(v) == Lives(ys)
      ensures ys == InsertInto(cmp, xs[..i], xs[i]) + xs[i + 1..]
      ensures Temporary(v, temp)
      ensures temp == [] <==> temp0 == [] && Passed(cmp, xs[..i], xs[i]) == 0
      ensures temp == [] ==> heap == old(heap) && vecs == old(vecs)
      ensures var copies := Round(Passed(cmp, xs[..i], xs[i]));
        && constructed == old(constructed) + copies + (if |temp0| < |temp| then old(Shared(v)) else 0)
        && destroyed == old(destroyed) + copies + |temp0| - |temp|
    {
      area, temp, ys := area0, temp0, xs;
      assert area[..|xs|] == Lives(xs);
      assert forall k :: 0 <= k < |xs| ==> area[k] == Lives(xs)[k];
      if cmp(area[i - 1].value, area[i].value) > 0 {
        ghost var heap0, vecs0 := heap, vecs;
        area, temp := SaveItem(v, i, temp, xs);
        ghost var heap1, vecs1 := heap, vecs;
        ys := SiftItem(v, i, area, temp, cmp, xs);
        area := Slots(v);
        KeptTwice(heap0, vecs0, heap1, vecs1, heap, vecs, v);
      } else {
        assert xs == xs[..i] + [xs[i]] + xs[i + 1..];
      }
    }

    /** sort()'s temporary element, once there is one, is the only one outside the buffers; v then owns its storage. */
    ghost predicate Temporary(v: nat, temp: seq<Slot<T>>)
      requires v in vecs
      reads this
    {
      Owes(|temp|) && (temp == [] || (|temp| == 1 && temp[0].Live? && OnlyOwner(v)))
    }

    /** The item is copied to temp, in private storage. */
    method SaveItem(v: nat, i: nat, temp0: seq<Slot<T>>, ghost xs: seq<T>)
      returns (area: seq<Slot<T>>, temp: seq<Slot<T>>)
      requires Intact() && v in vecs && 1 <= i < vecs[v].count && Contents(v) == Lives(xs) && Temporary(v, temp0)
      modifies this`heap, this`vecs, this`brk, this`constructed, this`destroyed
      ensures Intact() && OthersKept(old(heap), old(vecs), heap, vecs, v) && vecs[v].count == |xs|
      ensures area == Slots(v) && Contents(v) == Lives(xs) && temp == [Live(xs[i])] && Temporary(v, temp)
      ensures constructed == old(constructed) + 1 + (if temp0 == [] then old(Shared(v)) else 0)
      ensures destroyed == old(destroyed) + |temp0|
    {
      if temp0 == [] {
        EditArray(v);
        temp := RawSlots(1);
      } else {
        temp := DoDestroy(temp0, 0, 1);
      }
      area := Slots(v);
      assert area[..|xs|] == Lives(xs);
      temp := DoCopy(temp, 0, [area[i]]);
      assert area[i] == Lives(xs)[i];
    }

    /** The item goes down to its place. */
    method SiftItem(v: nat, i: nat, before: seq<Slot<T>>, temp: seq<Slot<T>>, cmp: (T, T) -> int, ghost xs: seq<T>)
      returns (ghost ys: seq<T>)
      requires Intact() && v in vecs && 1 <= i < vecs[v].count && before == Slots(v) && Contents(v) == Lives(xs)
      requires temp == [Live(xs[i])] && Temporary(v, temp) && cmp(xs[i - 1], xs[i]) > 0
      modifies this`heap, this`vecs, this`constructed, this`destroyed
      ensures Intact() && OthersKept(old(heap), old(vecs), heap, vecs, v) && vecs[v].count == |xs|
      ensures Contents(v) == Lives(ys) && ys == InsertInto(cmp, xs[..i], xs[i]) + xs[i + 1..] && Temporary(v, temp)
      ensures var passed := Passed(cmp, xs[..i], xs[i]);
        passed > 0 && constructed == old(constructed) + passed + 1 && destroyed == old(destroyed) + passed + 1
    {
      assert Pointed(heap, vecs[v]) && before[..|xs|] == Lives(xs);
      assert forall k :: 0 <= k < |xs| ==> before[k] == Lives(xs)[k];
      assert Typed(before, |xs|, 0, 0, trivialDtor);
      var area := SiftDown(before, temp, i, cmp, xs);
      ys := InsertInto(cmp, xs[..i], xs[i]) + xs[i + 1..];
      SiftedTyped(before, area, i, xs, ys, InsertInto(cmp, xs[..i], xs[i]));
      LiveTyped(before, |xs|, 0, 0);
      LiveTyped(area, |xs|, 0, 0);
      Write(v, area, vecs[v].count);
    }

    lemma SiftedTyped(before: seq<Slot<T>>, area: seq<Slot<T>>, i: nat, xs: seq<T>, ys: seq<T>, front: seq<T>)
      requires i < |xs| && Typed(before, |xs|, 0, 0, trivialDtor) && before[..|xs|] == Lives(xs)
      requires |area| == |before| && area[i + 1..] == before[i + 1..]
      requires |front| == i + 1 && area[..i + 1] == Lives(front) && ys == front + xs[i + 1..]
      ensures Typed(area, |xs|, 0, 0, trivialDtor) && area[..|xs|] == Lives(ys)
    {
      forall k | 0 <= k < |xs| ensures area[k] == Live(ys[k]) {
        if k <= i {
          assert area[k] == area[..i + 1][k];
        } else {
          assert area[k] == area[i + 1..][k - i - 1] && before[k] == before[i + 1..][k - i - 1] == before[..|xs|][k];
        }
      }
    }

    /** sort(): stable, and a vector that is sorted already is not even made private. SortCopiesAre says
        how much is copied; what is copied is destroyed, but for the storage that is made private. */
    method Sort(v: nat, cmp: (T, T) -> int)
      requires Valid() && v in vecs
      modifies this`heap, this`vecs, this`brk, this`constructed, this`destroyed
      ensures Valid() && OthersKept(old(heap), old(vecs), heap, vecs, v)
      ensures Contents(v) == Lives(InsertionSort(cmp, Elements(old(Contents(v)))))
      ensures var xs := Elements(old(Contents(v)));
        && (InOrder(cmp, xs) ==> heap == old(heap) && vecs == old(vecs))
        && constructed == old(constructed) + SortCopies(cmp, xs) + (if InOrder(cmp, xs) then 0 else old(Shared(v)))
        && destroyed == old(destroyed) + SortCopies(cmp, xs)
    {
      ghost var xs := Elements(Contents(v));
      if vecs[v].count > 1 {
        SortMany(v, cmp, xs);
      } else {
        SortedIsFixed(cmp, xs);
        NoCopies(cmp, xs);
      }
    }

    /** The rounds, and the end of the temporary element. */
    method SortMany(v: nat, cmp: (T, T) -> int, ghost xs: seq<T>)
      requires Valid() && v in vecs && vecs[v].count > 1 && Contents(v) == Lives(xs)
      modifies this`heap, this`vecs, this`brk, this`constructed, this`destroyed
      ensures Valid() && OthersKept(old(heap), old(vecs), heap, vecs, v)
      ensures Contents(v) == Lives(InsertionSort(cmp, xs))
      ensures InOrder(cmp, xs) ==> heap == old(heap) && vecs == old(vecs)
      ensures constructed == old(constructed) + SortCopies(cmp, xs) + (if InOrder(cmp, xs) then 0 else old(Shared(v)))
      ensures destroyed == old(destroyed) + SortCopies(cmp, xs)
    {
      ghost var start := Start(heap, vecs, constructed, destroyed, Shared(v));
      SortingStarts(v, cmp, start, xs);
      var temp, ys := SortRounds(v, cmp, start, xs);
      SortingEnds(v, cmp, start, xs, ys, temp);
      FreeTemp(v, temp);
    }

    method FreeTemp(v: nat, temp: seq<Slot<T>>)
      requires Intact() && v in vecs && Temporary(v, temp)
      modifies this`destroyed
      ensures Valid() && destroyed == old(destroyed) + |temp|
    {
      if temp != [] {
        var area := DoDestroy(temp, 0, 1);
        assert Vacant(area, trivialDtor);  // it is freed
      }
    }

    /** What holds before round i of sort(), which began at start with xs, and now has ys. */
    ghost predicate Sorting(v: nat, cmp: (T, T) -> int, start: Start<T>, xs: seq<T>, ys: seq<T>, i: nat,
        temp: seq<Slot<T>>)
      reads this
    {
      && v in vecs && 1 <= i <= vecs[v].count == |xs| == |ys|
      && Intact() && OthersKept(start.heap, start.vecs, heap, vecs, v)
      && Contents(v) == Lives(ys) && ys == InsertionSort(cmp, xs[..i]) + xs[i..]
      && Temporary(v, temp) && (temp == [] <==> SortCopies(cmp, xs[..i]) == 0)
      && (temp == [] ==> heap == start.heap && vecs == start.vecs && Shared(v) == start.shared)
      && constructed == start.constructed + SortCopies(cmp, xs[..i]) + (if temp == [] then 0 else start.shared)
      && destroyed == start.destroyed + SortCopies(cmp, xs[..i]) - |temp|
    }

    method SortRound(v: nat, i: nat, area0: seq<Slot<T>>, temp0: seq<Slot<T>>, cmp: (T, T) -> int,
        ghost start: Start<T>, ghost xs: seq<T>, ghost zs: seq<T>)
      returns (area: seq<Slot<T>>, temp: seq<Slot<T>>, ghost ys: seq<T>)
      requires Sorting(v, cmp, start, xs, zs, i, temp0) && i < |xs| && area0 == Slots(v)
      modifies this`heap, this`vecs, this`brk, this`constructed, this`destroyed
      ensures Sorting(v, cmp, start, xs, ys, i + 1, temp) && area == Slots(v) && vecs[v].count == old(vecs)[v].count
    {
      ghost var heap1, vecs1 := heap, vecs;
      area, temp, ys := SortStep(v, i, area0, temp0, cmp, zs);
      KeptTwice(start.heap, start.vecs, heap1, vecs1, heap, vecs, v);
      RoundDone(cmp, xs, i, zs);
    }

    method SortRounds(v: nat, cmp: (T, T) -> int, ghost start: Start<T>, ghost xs: seq<T>)
      returns (temp: seq<Slot<T>>, ghost ys: seq<T>)
      requires Sorting(v, cmp, start, xs, xs, 1, [])
      modifies this`heap, this`vecs, this`brk, this`constructed, this`destroyed
      ensures Sorting(v, cmp, start, xs, ys, |xs|, temp)
    {
      var i := 1;
      var area := Slots(v);
      temp, ys := [], xs;
      var count := vecs[v].count;
      while i < count
        invariant 1 <= i <= count == |xs|
        invariant Sorting(v, cmp, start, xs, ys, i, temp)
        invariant area == Slots(v)
      {
        area, temp, ys := SortRound(v, i, area, temp, cmp, start, xs, ys);
        i := i + 1;
      }
    }

    lemma SortingStarts(v: nat, cmp: (T, T) -> int, start: Start<T>, xs: seq<T>)
      requires Valid() && v in vecs && vecs[v].count > 1 && Contents(v) == Lives(xs)
      requires start == Start(heap, vecs, constructed, destroyed, Shared(v))
      ensures Sorting(v, cmp, start, xs, xs, 1, [])
    {
      assert xs[..1] == [xs[0]] && InsertionSort(cmp, [xs[0]]) == [xs[0]];
      assert [xs[0]][..0] == [] && SortCopies(cmp, [xs[0]][..0]) == 0;
      assert xs == InsertionSort(cmp, xs[..1]) + xs[1..];
    }

    lemma SortingEnds(v: nat, cmp: (T, T) -> int, start: Start<T>, xs: seq<T>, ys: seq<T>, temp: seq<Slot<T>>)
      requires Sorting(v, cmp, start, xs, ys, |xs|, temp)
      ensures ys == InsertionSort(cmp, xs)
      ensures Intact() && OthersKept(start.heap, start.vecs, heap, vecs, v) && Contents(v) == Lives(ys) &&
        Temporary(v, temp)
      ensures InOrder(cmp, xs) ==> heap == start.heap && vecs == start.vecs
      ensures constructed == start.constructed + SortCopies(cmp, xs) + (if InOrder(cmp, xs) then 0 else start.shared)
      ensures destroyed + |temp| == start.destroyed + SortCopies(cmp, xs)
    {
      assert xs[..|xs|] == xs;
      NoCopies(cmp, xs);
    }

    lemma RoundDone(cmp: (T, T) -> int, xs: seq<T>, i: nat, zs: seq<T>)
      requires 1 <= i < |xs| && zs == InsertionSort(cmp, xs[..i]) + xs[i..]
      ensures InsertInto(cmp, zs[..i], zs[i]) + zs[i + 1..] == InsertionSort(cmp, xs[..i + 1]) + xs[i + 1..]
      ensures SortCopies(cmp, xs[..i + 1]) == SortCopies(cmp, xs[..i]) + Round(Passed(cmp, zs[..i], zs[i]))
    {
      assert zs[..i] == InsertionSort(cmp, xs[..i]) && zs[i] == xs[i] && zs[i + 1..] == xs[i + 1..];
      assert xs[..i + 1][..i] == xs[..i];
    }
  }

  lemma SourceSurvives<T>(heap0: Heap<T>, vecs0: Vecs, heap1: Heap<T>, vecs1: Vecs, trivialDtor: bool, v: nat, w: nat)
    requires Sound(heap0, vecs0, trivialDtor, {}) && OthersKept(heap0, vecs0, heap1, vecs1, v)
    requires Sound(heap1, vecs1, trivialDtor, {v}) && v in vecs0 && w in vecs0
    requires w == v && vecs0[v].storage.Some? ==> heap0[vecs0[v].storage.value].refs > 1
    ensures SlotsOf(heap1, vecs0[w]) == SlotsOf(heap0, vecs0[w])
    ensures vecs0[w].storage.Some? ==> vecs0[w].storage.value in heap1
  {
    if w == v && vecs0[w].storage.Some? {
      SoleHolder(heap0, vecs0, v);
      var u :| u in vecs0 && u != v && vecs0[u].storage == vecs0[v].storage;
      assert vecs1[u] == vecs0[u] && Pointed(heap1, vecs1[u]) && Pointed(heap0, vecs0[u]);
    } else if w != v {
      assert vecs1[w] == vecs0[w] && Pointed(heap1, vecs1[w]);
    }
  }

  // ----- amortised growth

  lemma LivesStep<T>(items: seq<T>, k: nat)
    requires k < |items|
    ensures Lives(items[..k + 1]) == Lives(items[..k]) + [Live(items[k])]
  {
  }

  /** Capacity and elements copied after n pushes onto an empty, unshared vector. */
  ghost function Pushed(n: nat): (nat, nat) {
    if n == 0 then (0, 0)
    else
      var (capacity, copied) := Pushed(n - 1);
      if capacity < n then (Grown(n), copied + (n - 1)) else (capacity, copied)
  }

  /** n pushes copy fewer than 3n elements in all. */
  lemma {:induction false} PushesAreAmortised(n: nat)
    ensures n <= Pushed(n).0 && Pushed(n).1 <= 2 * Pushed(n).0
    ensures n > 0 ==> Pushed(n).1 < 3 * n
  {
    if n > 0 { PushesAreAmortised(n - 1); }
  }
}
