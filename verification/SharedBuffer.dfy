/** The heap of reference-counted buffers, and the vectors that share them. */
module SharedBuffer {

  datatype Option<T> = None | Some(value: T)

  /** A slot of raw memory, or one that holds a constructed element. */
  datatype Slot<T> = Raw | Live(value: T)

  /** mRefs, and the storage of mSize / mItemSize slots. */
  datatype Buffer<T> = Buffer(refs: nat, slots: seq<Slot<T>>)

  /** mStorage and mCount. */
  datatype Vec = Vec(storage: Option<nat>, count: nat)

  type Heap<T> = map<nat, Buffer<T>>
  type Vecs = map<nat, Vec>

  function RawSlots<T>(n: nat): (s: seq<Slot<T>>)
    ensures |s| == n && forall i :: 0 <= i < n ==> s[i].Raw?
  {
    seq(n, _ => Raw)
  }

  // ----- construct and destroy: what they may be called on, and what they leave

  ghost predicate AllLive<T>(s: seq<Slot<T>>) { forall i :: 0 <= i < |s| ==> s[i].Live? }

  /** Memory an element may be constructed in: raw, unless destruction means nothing for the type. */
  ghost predicate Vacant<T>(s: seq<Slot<T>>, trivialDtor: bool) {
    trivialDtor || forall i :: 0 <= i < |s| ==> s[i].Raw?
  }

  /** _do_copy and its like: n vacant slots are constructed. */
  function Construct<T>(dest: seq<Slot<T>>, at: nat, src: seq<Slot<T>>, trivialDtor: bool): (r: seq<Slot<T>>)
    requires at + |src| <= |dest| && AllLive(src) && Vacant(dest[at..at + |src|], trivialDtor)
    ensures |r| == |dest|
    ensures forall i :: 0 <= i < |dest| ==> r[i] == if at <= i < at + |src| then src[i - at] else dest[i]
  {
    dest[..at] + src + dest[at + |src|..]
  }

  /** _do_destroy: n live slots become raw memory. */
  function Destroy<T>(s: seq<Slot<T>>, at: nat, n: nat, trivialDtor: bool): (r: seq<Slot<T>>)
    requires at + n <= |s| && AllLive(s[at..at + n])
    ensures |r| == |s| && forall i :: 0 <= i < |s| ==>
      if at <= i < at + n then trivialDtor || r[i].Raw? else r[i] == s[i]
  {
    if trivialDtor then s else s[..at] + RawSlots(n) + s[at + n..]
  }

  /** _do_move_forward and _do_move_backward: n live slots change place, over vacant ones. */
  function Move<T>(s: seq<Slot<T>>, to: nat, from: nat, n: nat, trivialDtor: bool): (r: seq<Slot<T>>)
    requires from + n <= |s| && to + n <= |s| && AllLive(s[from..from + n])
    requires forall i :: to <= i < to + n && !(from <= i < from + n) ==> trivialDtor || s[i].Raw?
    ensures |r| == |s| && r[to..to + n] == s[from..from + n]
    ensures forall i :: 0 <= i < |s| && !(to <= i < to + n) ==>
      r[i] == if from <= i < from + n && !trivialDtor then Raw else s[i]
  {
    seq(|s|, i requires 0 <= i < |s| =>
      if to <= i < to + n then s[from + (i - to)]
      else if from <= i < from + n && !trivialDtor then Raw else s[i])
  }

  // ----- how many elements there are

  ghost function LiveCount<T>(s: seq<Slot<T>>): nat {
    if s == [] then 0 else LiveCount(s[..|s| - 1]) + (if s[|s| - 1].Live? then 1 else 0)
  }

  ghost function LiveAt<T>(heap: Heap<T>, p: nat): nat {
    if p in heap then LiveCount(heap[p].slots) else 0
  }

  /** The live elements in all buffers below address n. */
  ghost function LiveBelow<T>(heap: Heap<T>, n: nat): nat {
    if n == 0 then 0 else LiveBelow(heap, n - 1) + LiveAt(heap, n - 1)
  }

  /** One buffer changes. */
  lemma {:induction false} LiveBelowChange<T>(heap: Heap<T>, heap': Heap<T>, p: nat, n: nat)
    requires forall q :: q != p ==> LiveAt(heap', q) == LiveAt(heap, q)
    ensures LiveBelow(heap', n) == LiveBelow(heap, n) + if p < n then LiveAt(heap', p) - LiveAt(heap, p) else 0
  {
    if n > 0 {
      LiveBelowChange(heap, heap', p, n - 1);
      assert n - 1 != p ==> LiveAt(heap', n - 1) == LiveAt(heap, n - 1);
    }
  }

  lemma {:induction false} NoBufferNoElement<T>(heap: Heap<T>, n: nat)
    requires heap == map[]
    ensures LiveBelow(heap, n) == 0
  {
    if n > 0 { NoBufferNoElement(heap, n - 1); }
  }

  /** If destruction means something, the live elements are the first count but for those of the gap. */
  lemma {:induction false} TypedCount<T>(s: seq<Slot<T>>, count: nat, lo: nat, hi: nat)
    requires Typed(s, count, lo, hi, false)
    ensures LiveCount(s) == count - (hi - lo)
  {
    if |s| > count {
      TypedCount(s[..|s| - 1], count, lo, hi);
    } else if hi < count {
      TypedCount(s[..|s| - 1], count - 1, lo, hi);
    } else if lo < hi {
      TypedCount(s[..|s| - 1], count - 1, lo, hi - 1);
    } else if count > 0 {
      TypedCount(s[..|s| - 1], count - 1, lo - 1, hi - 1);
    }
  }

  // ----- the invariant of the heap

  ghost function Holders(vecs: Vecs, p: nat): set<nat> {
    set v | v in vecs && vecs[v].storage == Some(p)
  }

  /** The first count slots are live except for a gap, and all others are vacant. */
  ghost predicate Typed<T>(slots: seq<Slot<T>>, count: nat, lo: nat, hi: nat, trivialDtor: bool) {
    && lo <= hi <= count <= |slots|
    && (forall i :: 0 <= i < lo ==> slots[i].Live?)
    && (forall i :: hi <= i < count ==> slots[i].Live?)
    && (trivialDtor ||
      ((forall i :: lo <= i < hi ==> slots[i].Raw?) && (forall i :: count <= i < |slots| ==> slots[i].Raw?)))
  }

  function SlotsOf<T>(heap: Heap<T>, vec: Vec): seq<Slot<T>> {
    if vec.storage.Some? && vec.storage.value in heap then heap[vec.storage.value].slots else []
  }

  ghost predicate Pointed<T>(heap: Heap<T>, vec: Vec) {
    if vec.storage.Some? then vec.storage.value in heap else vec.count == 0
  }

  /** Every buffer's mRefs is the number of vectors that hold it, and it is held; those that
      share one agree on its size; and all slots are in order, except v's where it is skipped. */
  ghost predicate Sound<T>(heap: Heap<T>, vecs: Vecs, trivialDtor: bool, skip: set<nat>) {
    && Counted(heap, vecs)
    && (forall v :: v in vecs ==> Pointed(heap, vecs[v]))
    && Agreed(vecs)
    && (forall v :: v in vecs && v !in skip ==> Typed(SlotsOf(heap, vecs[v]), vecs[v].count, 0, 0, trivialDtor))
  }

  ghost predicate Counted<T>(heap: Heap<T>, vecs: Vecs) {
    && (forall p :: p in heap ==> heap[p].refs >= 1)
    && (forall p {:trigger Holders(vecs, p)} :: p in heap ==> heap[p].refs == |Holders(vecs, p)|)
  }

  ghost predicate Agreed(vecs: Vecs) {
    forall v, w :: Sharing(vecs, v, w) ==> vecs[v].count == vecs[w].count
  }

  ghost predicate Sharing(vecs: Vecs, v: nat, w: nat) {
    v in vecs && w in vecs && vecs[v].storage.Some? && vecs[v].storage == vecs[w].storage
  }

  /** Nothing a vector other than v can see has changed. */
  ghost predicate OthersKept<T>(heap0: Heap<T>, vecs0: Vecs, heap1: Heap<T>, vecs1: Vecs, v: nat) {
    && vecs1.Keys == vecs0.Keys + {v}
    && forall w :: w in vecs0 && w != v ==> vecs1[w] == vecs0[w] && SlotsOf(heap1, vecs1[w]) == SlotsOf(heap0, vecs0[w])
  }

  lemma KeptTwice<T>(heap0: Heap<T>, vecs0: Vecs, heap1: Heap<T>, vecs1: Vecs, heap2: Heap<T>, vecs2: Vecs, v: nat)
    requires OthersKept(heap0, vecs0, heap1, vecs1, v) && OthersKept(heap1, vecs1, heap2, vecs2, v)
    ensures OthersKept(heap0, vecs0, heap2, vecs2, v)
  {
  }

  lemma HoldersUpdate(vecs: Vecs, v: nat, vec: Vec, p: nat)
    ensures var was, now := v in vecs && vecs[v].storage == Some(p), vec.storage == Some(p);
      |Holders(vecs[v := vec], p)| == |Holders(vecs, p)| - (if was then 1 else 0) + (if now then 1 else 0)
  {
    var was, now := Holders(vecs, p), Holders(vecs[v := vec], p);
    if vec.storage == Some(p) {
      assert now == was + {v};
    } else {
      assert now == was - {v};
    }
  }

  lemma Singleton(hs: set<nat>, v: nat)
    requires v in hs
    ensures |hs| == 1 <==> hs == {v}
  {
    if |hs| == 1 {
      assert |hs - {v}| == 0;
    }
  }

  /** Sole ownership is exactly a count of one. */
  lemma SoleHolder<T>(heap: Heap<T>, vecs: Vecs, v: nat)
    requires Counted(heap, vecs) && v in vecs && vecs[v].storage.Some? && Pointed(heap, vecs[v])
    ensures heap[vecs[v].storage.value].refs == 1
       <==> forall w :: w in vecs && w != v ==> vecs[w].storage != vecs[v].storage
  {
    var hs := Holders(vecs, vecs[v].storage.value);
    Singleton(hs, v);
    if forall w :: w in vecs && w != v ==> vecs[w].storage != vecs[v].storage {
      assert forall w :: w in hs ==> w == v;
      assert hs == {v};
    } else {
      var w :| w in vecs && w != v && vecs[w].storage == vecs[v].storage;
      assert w in hs;
    }
  }

  /** A buffer exists exactly as long as some vector holds it. */
  lemma HeldIsAlive<T>(heap: Heap<T>, vecs: Vecs, trivialDtor: bool, skip: set<nat>)
    requires Sound(heap, vecs, trivialDtor, skip)
    ensures forall p :: p in heap <==> exists v :: v in vecs && vecs[v].storage == Some(p)
  {
    forall p | p in heap ensures exists v :: v in vecs && vecs[v].storage == Some(p) {
      assert |Holders(vecs, p)| == heap[p].refs >= 1;
      var v :| v in Holders(vecs, p);
    }
    forall v | v in vecs && vecs[v].storage.Some? ensures vecs[v].storage.value in heap {
      assert Pointed(heap, vecs[v]);
    }
  }

  function Released<T>(heap: Heap<T>, p: nat): Heap<T>
    requires p in heap && heap[p].refs >= 1
  {
    if heap[p].refs == 1 then heap - {p} else heap[p := heap[p].(refs := heap[p].refs - 1)]
  }

  /** One vector's storage changes: all counts stay right if the two buffers' counts follow. */
  lemma CountedUpdate<T>(heap: Heap<T>, vecs: Vecs, heap': Heap<T>, v: nat, vec: Vec)
    requires Counted(heap, vecs) && (v in vecs ==> Pointed(heap, vecs[v])) && Pointed(heap', vec)
    requires forall p :: p in heap' && p !in heap ==>
      vec.storage == Some(p) && heap'[p].refs == 1 && Holders(vecs, p) == {}
    requires forall p :: p in heap && p !in heap' ==> v in vecs && vecs[v].storage == Some(p) && heap[p].refs == 1
    requires forall p :: p in heap && p in heap' ==>
      heap'[p].refs == heap[p].refs - (if v in vecs && vecs[v].storage == Some(p) then 1 else 0)
      + (if vec.storage == Some(p) then 1 else 0) >= 1
    ensures Counted(heap', vecs[v := vec])
  {
    forall p | p in heap' ensures heap'[p].refs == |Holders(vecs[v := vec], p)| {
      HoldersUpdate(vecs, v, vec, p);
    }
  }

  /** ... and all slots stay in order if no other vector's buffer is touched. */
  lemma SoundUpdate<T>(heap: Heap<T>, vecs: Vecs, trivialDtor: bool, heap': Heap<T>, v: nat, vec: Vec)
    requires Sound(heap, vecs, trivialDtor, {v}) && Counted(heap', vecs[v := vec]) && Pointed(heap', vec)
    requires forall w :: w in vecs && w != v && vecs[w].storage.Some? ==>
      Pointed(heap', vecs[w]) && SlotsOf(heap', vecs[w]) == SlotsOf(heap, vecs[w])
    requires forall w :: w in vecs && w != v && vecs[w].storage.Some? && vecs[w].storage == vec.storage ==>
      vecs[w].count == vec.count
    ensures Sound(heap', vecs[v := vec], trivialDtor, {v}) && OthersKept(heap, vecs, heap', vecs[v := vec], v)
    ensures Typed(SlotsOf(heap', vec), vec.count, 0, 0, trivialDtor) ==> Sound(heap', vecs[v := vec], trivialDtor, {})
  {
    var vecs' := vecs[v := vec];
    assert Agreed(vecs') by { AgreedUpdate(vecs, v, vec); }
    forall w | w in vecs' && w != v
      ensures Pointed(heap', vecs'[w]) && SlotsOf(heap', vecs'[w]) == SlotsOf(heap, vecs[w])
    {
      assert w in vecs && vecs'[w] == vecs[w] && Pointed(heap, vecs[w]);
    }
    forall w | w in vecs' && w != v ensures Typed(SlotsOf(heap', vecs'[w]), vecs'[w].count, 0, 0, trivialDtor) {
      assert w in vecs && w !in {v} && vecs'[w] == vecs[w];
    }
    assert OthersKept(heap, vecs, heap', vecs', v);
    assert Sound(heap', vecs', trivialDtor, {v});
  }

  lemma AgreedUpdate(vecs: Vecs, v: nat, vec: Vec)
    requires Agreed(vecs)
    requires forall w :: w in vecs && w != v && vecs[w].storage.Some? && vecs[w].storage == vec.storage ==>
      vecs[w].count == vec.count
    ensures Agreed(vecs[v := vec])
  {
    var vecs' := vecs[v := vec];
    forall x, y | Sharing(vecs', x, y) ensures vecs'[x].count == vecs'[y].count {
      assert x != v && y != v ==> Sharing(vecs, x, y);
    }
  }

  lemma ReleaseSound<T>(heap: Heap<T>, vecs: Vecs, trivialDtor: bool, v: nat)
    requires Sound(heap, vecs, trivialDtor, {v}) && v in vecs && vecs[v].storage.Some?
    ensures var heap', vecs' := Released(heap, vecs[v].storage.value), vecs[v := Vec(None, 0)];
      Sound(heap', vecs', trivialDtor, {}) && OthersKept(heap, vecs, heap', vecs', v)
  {
    SoleHolder(heap, vecs, v);
    CountedUpdate(heap, vecs, Released(heap, vecs[v].storage.value), v, Vec(None, 0));
    SoundUpdate(heap, vecs, trivialDtor, Released(heap, vecs[v].storage.value), v, Vec(None, 0));
  }

  /** A vector without storage takes a new buffer. */
  lemma InstallSound<T>(heap: Heap<T>, vecs: Vecs, trivialDtor: bool, v: nat, p: nat, slots: seq<Slot<T>>, count: nat)
    requires Sound(heap, vecs, trivialDtor, {}) && (v in vecs ==> vecs[v].storage.None?) && p !in heap
    ensures var heap', vecs' := heap[p := Buffer(1, slots)], vecs[v := Vec(Some(p), count)];
      && Sound(heap', vecs', trivialDtor, {v}) && OthersKept(heap, vecs, heap', vecs', v)
      && (Typed(slots, count, 0, 0, trivialDtor) ==> Sound(heap', vecs', trivialDtor, {}))
  {
    assert Holders(vecs, p) == {};
    CountedUpdate(heap, vecs, heap[p := Buffer(1, slots)], v, Vec(Some(p), count));
    SoundUpdate(heap, vecs, trivialDtor, heap[p := Buffer(1, slots)], v, Vec(Some(p), count));
  }

  function Acquired<T>(heap: Heap<T>, vec: Vec): Heap<T>
    requires Pointed(heap, vec)
  {
    if vec.storage.None? then heap
    else
      var p := vec.storage.value;
      heap[p := heap[p].(refs := heap[p].refs + 1)]
  }

  lemma AcquiredLives<T>(heap: Heap<T>, vec: Vec, n: nat)
    requires Pointed(heap, vec)
    ensures LiveBelow(Acquired(heap, vec), n) == LiveBelow(heap, n)
  {
    LiveBelowChange(heap, Acquired(heap, vec), n, n);
  }

  /** A vector without storage comes to share w's buffer, if it has one. */
  lemma ShareSound<T>(heap: Heap<T>, vecs: Vecs, trivialDtor: bool, v: nat, w: nat)
    requires Sound(heap, vecs, trivialDtor, {}) && (v in vecs ==> vecs[v].storage.None?) && w in vecs && w != v
    ensures Pointed(heap, vecs[w])
    ensures var heap', vecs' := Acquired(heap, vecs[w]), vecs[v := vecs[w]];
      && Sound(heap', vecs', trivialDtor, {}) && OthersKept(heap, vecs, heap', vecs', v)
      && SlotsOf(heap', vecs[w]) == SlotsOf(heap, vecs[w])
  {
    var heap' := Acquired(heap, vecs[w]);
    CountedUpdate(heap, vecs, heap', v, vecs[w]);
    SoundUpdate(heap, vecs, trivialDtor, heap', v, vecs[w]);
    assert Typed(SlotsOf(heap, vecs[w]), vecs[w].count, 0, 0, trivialDtor);
  }

  /** The sole holder of a buffer writes to it. */
  lemma WriteSound<T>(heap: Heap<T>, vecs: Vecs, trivialDtor: bool, v: nat, slots: seq<Slot<T>>, count: nat)
    requires Sound(heap, vecs, trivialDtor, {v}) && v in vecs && vecs[v].storage.Some?
    requires heap[vecs[v].storage.value].refs == 1
    ensures var p := vecs[v].storage.value;
      var heap', vecs' := heap[p := Buffer(1, slots)], vecs[v := Vec(Some(p), count)];
      && Sound(heap', vecs', trivialDtor, {v}) && OthersKept(heap, vecs, heap', vecs', v)
      && (Typed(slots, count, 0, 0, trivialDtor) ==> Sound(heap', vecs', trivialDtor, {}))
  {
    SoleHolder(heap, vecs, v);
    var p := vecs[v].storage.value;
    CountedUpdate(heap, vecs, heap[p := Buffer(1, slots)], v, Vec(Some(p), count));
    SoundUpdate(heap, vecs, trivialDtor, heap[p := Buffer(1, slots)], v, Vec(Some(p), count));
  }
}
