/** Vectors kept in order: binary search, insertion in place, and merging. */
module SortedVector {
  import opened SharedBuffer
  import opened StableSort
  import opened VectorImpl

  ghost predicate Strict<T>(cmp: (T, T) -> int, s: seq<T>) {
    forall i, j :: 0 <= i < j < |s| ==> cmp(s[i], s[j]) < 0
  }

  /** The last element that cmp calls equal to e: the sorted map that a strict vector is. */
  function Lookup<T>(cmp: (T, T) -> int, s: seq<T>, e: T): Option<T> {
    if s == [] then None
    else if cmp(s[|s| - 1], e) == 0 then Some(s[|s| - 1])
    else Lookup(cmp, s[..|s| - 1], e)
  }

  /** Everything before order is less than item, everything from it on is greater. */
  ghost predicate InsertionPoint<T>(cmp: (T, T) -> int, s: seq<T>, item: T, order: nat) {
    && order <= |s|
    && (forall i :: 0 <= i < order ==> cmp(s[i], item) < 0)
    && (forall i :: order <= i < |s| ==> cmp(s[i], item) > 0)
  }

  lemma Less<T(!new)>(cmp: (T, T) -> int, a: T, b: T, c: T)
    requires TotalPreorder(cmp)
    ensures cmp(a, b) < 0 && cmp(b, c) <= 0 ==> cmp(a, c) < 0
    ensures cmp(a, b) <= 0 && cmp(b, c) < 0 ==> cmp(a, c) < 0
    ensures cmp(a, b) < 0 <==> cmp(b, a) > 0
    ensures cmp(a, a) == 0 && (cmp(a, b) == 0 <==> cmp(b, a) == 0)
  {
    assert Consistent(cmp, a, b, a) && Consistent(cmp, b, a, b) && Consistent(cmp, a, a, a);
    assert Consistent(cmp, a, b, c) && Consistent(cmp, c, a, b) && Consistent(cmp, b, c, a);
    assert Consistent(cmp, c, b, a) && Consistent(cmp, a, c, b);
  }

  lemma {:induction false} LookupAt<T(!new)>(cmp: (T, T) -> int, s: seq<T>, e: T, k: nat)
    requires TotalPreorder(cmp) && Strict(cmp, s) && k < |s| && cmp(s[k], e) == 0
    ensures Lookup(cmp, s, e) == Some(s[k])
  {
    if k < |s| - 1 {
      Less(cmp, s[k], s[|s| - 1], e);
      Less(cmp, s[|s| - 1], e, s[k]);
      Less(cmp, e, s[k], s[|s| - 1]);
      LookupAt(cmp, s[..|s| - 1], e, k);
    }
  }

  lemma {:induction false} LookupNone<T>(cmp: (T, T) -> int, s: seq<T>, e: T)
    ensures Lookup(cmp, s, e) == None <==> forall i :: 0 <= i < |s| ==> cmp(s[i], e) != 0
  {
    if s != [] {
      LookupNone(cmp, s[..|s| - 1], e);
      assert forall i :: 0 <= i < |s| - 1 ==> s[..|s| - 1][i] == s[i];
    }
  }

  lemma {:induction false} LookupConcat<T>(cmp: (T, T) -> int, a: seq<T>, b: seq<T>, e: T)
    ensures Lookup(cmp, a + b, e) == if Lookup(cmp, b, e).Some? then Lookup(cmp, b, e) else Lookup(cmp, a, e)
  {
    if b == [] {
      assert a + b == a;
    } else {
      assert (a + b)[..|a + b| - 1] == a + b[..|b| - 1];
      LookupConcat(cmp, a, b[..|b| - 1], e);
    }
  }

  /** There is one insertion point, and none beside an equal element. */
  lemma InsertionPointUnique<T(!new)>(cmp: (T, T) -> int, s: seq<T>, item: T, a: nat, b: nat)
    requires InsertionPoint(cmp, s, item, a) && InsertionPoint(cmp, s, item, b)
    ensures a == b && Lookup(cmp, s, item) == None
  {
    LookupNone(cmp, s, item);
  }

  // ----- what add and remove do to the map

  lemma InsertIsAdd<T(!new)>(cmp: (T, T) -> int, s: seq<T>, item: T, order: nat, r: seq<T>)
    requires TotalPreorder(cmp) && Strict(cmp, s) && InsertionPoint(cmp, s, item, order)
    requires r == s[..order] + [item] + s[order..]
    ensures Strict(cmp, r) && forall e :: Lookup(cmp, r, e) == Lookup(cmp, s + [item], e)
  {
    forall i, j | 0 <= i < j < |r| ensures cmp(r[i], r[j]) < 0 {
      if j == order || i == order {
        Less(cmp, r[j], r[i], r[j]);
      }
    }
    forall e ensures Lookup(cmp, r, e) == Lookup(cmp, s + [item], e) {
      assert s == s[..order] + s[order..] && r == (s[..order] + [item]) + s[order..];
      LookupConcat(cmp, s[..order], s[order..], e);
      LookupConcat(cmp, s[..order], [item], e);
      LookupConcat(cmp, s[..order] + [item], s[order..], e);
      LookupConcat(cmp, s, [item], e);
      LookupNone(cmp, s[order..], e);
      if cmp(item, e) == 0 {
        forall i | 0 <= i < |s[order..]| ensures cmp(s[order..][i], e) != 0 {
          assert cmp(s[order + i], item) > 0;
          Less(cmp, item, s[order + i], e);
          Less(cmp, s[order + i], e, item);
          Less(cmp, item, e, item);
        }
      }
    }
  }

  lemma ReplaceIsAdd<T(!new)>(cmp: (T, T) -> int, s: seq<T>, item: T, k: nat, r: seq<T>)
    requires TotalPreorder(cmp) && Strict(cmp, s) && k < |s| && cmp(s[k], item) == 0 && r == s[k := item]
    ensures Strict(cmp, r) && forall e :: Lookup(cmp, r, e) == Lookup(cmp, s + [item], e)
  {
    Less(cmp, s[k], item, s[k]);
    forall i, j | 0 <= i < j < |r| ensures cmp(r[i], r[j]) < 0 {
      assert cmp(s[i], s[j]) < 0;
      if j == k { Less(cmp, s[i], s[k], item); }
      if i == k { Less(cmp, item, s[k], s[j]); }
    }
    forall e ensures Lookup(cmp, r, e) == Lookup(cmp, s + [item], e) {
      LookupConcat(cmp, s, [item], e);
      if cmp(item, e) == 0 {
        LookupAt(cmp, r, e, k);
      } else {
        EqualTransitive(cmp, item, s[k], e);
        LookupNone(cmp, s, e);
        LookupNone(cmp, r, e);
        if i :| 0 <= i < |s| && cmp(s[i], e) == 0 {
          LookupAt(cmp, s, e, i);
          LookupAt(cmp, r, e, i);
        } else {
          assert forall i :: 0 <= i < |r| ==> cmp(r[i], e) != 0;
        }
      }
    }
  }

  lemma OnlyOneEqual<T(!new)>(cmp: (T, T) -> int, s: seq<T>, e: T, k: nat, j: nat)
    requires TotalPreorder(cmp) && Strict(cmp, s) && k < |s| && j < |s| && j != k && cmp(s[k], e) == 0
    ensures cmp(s[j], e) != 0
  {
    EqualTransitive(cmp, s[j], e, s[k]);
    EqualTransitive(cmp, s[k], e, s[k]);
    assert if j < k then cmp(s[j], s[k]) < 0 else cmp(s[k], s[j]) < 0;
  }

  /** r is s without element k. */
  ghost predicate Erased<T>(s: seq<T>, k: nat, r: seq<T>) {
    k < |s| == |r| + 1 && forall i :: 0 <= i < |r| ==> r[i] == s[if i < k then i else i + 1]
  }

  lemma ErasedEqual<T(!new)>(cmp: (T, T) -> int, s: seq<T>, k: nat, r: seq<T>, e: T)
    requires TotalPreorder(cmp) && Strict(cmp, s) && Erased(s, k, r) && cmp(s[k], e) == 0
    ensures Lookup(cmp, r, e) == None
  {
    LookupNone(cmp, r, e);
    forall i | 0 <= i < |r| ensures cmp(r[i], e) != 0 {
      OnlyOneEqual(cmp, s, e, k, if i < k then i else i + 1);
    }
  }

  lemma ErasedOther<T(!new)>(cmp: (T, T) -> int, s: seq<T>, k: nat, r: seq<T>, e: T)
    requires TotalPreorder(cmp) && Strict(cmp, s) && Strict(cmp, r) && Erased(s, k, r) && cmp(s[k], e) != 0
    ensures Lookup(cmp, r, e) == Lookup(cmp, s, e)
  {
    if Lookup(cmp, s, e) == None {
      LookupNone(cmp, r, e);
      LookupNone(cmp, s, e);
    } else {
      LookupNone(cmp, s, e);
      var i :| 0 <= i < |s| && cmp(s[i], e) == 0;
      LookupAt(cmp, s, e, i);
      LookupAt(cmp, r, e, if i < k then i else i - 1);
    }
  }

  lemma ErasedLookup<T(!new)>(cmp: (T, T) -> int, s: seq<T>, item: T, k: nat, r: seq<T>, e: T)
    requires TotalPreorder(cmp) && Strict(cmp, s) && Strict(cmp, r) && Erased(s, k, r) && cmp(s[k], item) == 0
    ensures Lookup(cmp, r, e) == if cmp(item, e) == 0 then None else Lookup(cmp, s, e)
  {
    EqualTransitive(cmp, s[k], item, e);
    EqualTransitive(cmp, item, s[k], e);
    if cmp(item, e) == 0 { ErasedEqual(cmp, s, k, r, e); } else { ErasedOther(cmp, s, k, r, e); }
  }

  lemma RemoveIsErase<T(!new)>(cmp: (T, T) -> int, s: seq<T>, item: T, k: nat, r: seq<T>)
    requires TotalPreorder(cmp) && Strict(cmp, s) && k < |s| && cmp(s[k], item) == 0 && r == s[..k] + s[k + 1..]
    ensures Strict(cmp, r)
    ensures forall e :: Lookup(cmp, r, e) == if cmp(item, e) == 0 then None else Lookup(cmp, s, e)
  {
    assert Erased(s, k, r);
    forall e ensures Lookup(cmp, r, e) == if cmp(item, e) == 0 then None else Lookup(cmp, s, e) {
      ErasedLookup(cmp, s, item, k, r, e);
    }
  }

  lemma EqualTransitive<T(!new)>(cmp: (T, T) -> int, a: T, b: T, c: T)
    requires TotalPreorder(cmp)
    ensures cmp(a, b) == 0 && cmp(b, c) == 0 ==> cmp(a, c) == 0 && cmp(c, a) == 0 && cmp(b, a) == 0 && cmp(c, b) == 0
    ensures cmp(b, a) == 0 <==> cmp(a, b) == 0
  {
    Less(cmp, a, b, c);
    Less(cmp, b, c, a);
    Less(cmp, a, c, b);
    assert Consistent(cmp, a, b, c) && Consistent(cmp, c, b, a);
  }

  // ----- the implementation

  /** Everything before a smaller element is smaller still, everything after a greater one greater. */
  lemma Beside<T(!new)>(cmp: (T, T) -> int, s: seq<T>, item: T, mid: nat)
    requires TotalPreorder(cmp) && Sorted(cmp, s) && mid < |s|
    ensures cmp(s[mid], item) < 0 ==> forall i :: 0 <= i <= mid ==> cmp(s[i], item) < 0
    ensures cmp(s[mid], item) > 0 ==> forall i :: mid <= i < |s| ==> cmp(s[i], item) > 0
  {
    forall i | 0 <= i < |s| && i != mid
      ensures i < mid && cmp(s[mid], item) < 0 ==> cmp(s[i], item) < 0
      ensures mid < i && cmp(s[mid], item) > 0 ==> cmp(s[i], item) > 0
    {
      if i < mid {
        Less(cmp, s[i], s[mid], item);
      } else {
        Less(cmp, item, s[mid], s[i]);
      }
      Less(cmp, item, s[mid], item);
      Less(cmp, item, s[i], item);
    }
  }

  /** What _indexOrderOf finds: an equal element, or the insertion point. */
  ghost predicate Found<T>(cmp: (T, T) -> int, s: seq<T>, item: T, index: Option<nat>, order: nat) {
    match index
    case Some(k) => k == order < |s| && cmp(s[k], item) == 0
    case None => InsertionPoint(cmp, s, item, order)
  }

  ghost function Keys<T>(store: Vectors<T>, v: nat): seq<T>
    requires store.Valid() && v in store.vecs
    reads store
  {
    Elements(store.Contents(v))
  }

  lemma KeysAt<T>(store: Vectors<T>, v: nat, k: nat)
    requires store.Valid() && v in store.vecs && k < store.vecs[v].count
    ensures k < |store.Slots(v)| && store.Slots(v)[k] == Live(Keys(store, v)[k])
  {
    assert store.Slots(v)[k] == store.Contents(v)[k];
  }

  lemma KeysAre<T>(store: Vectors<T>, v: nat, t: seq<T>)
    requires store.Valid() && v in store.vecs && store.Contents(v) == Lives(t)
    ensures Keys(store, v) == t
  {
    forall k | 0 <= k < |t| ensures Keys(store, v)[k] == t[k] {
      assert Lives(t)[k] == Lives(Keys(store, v))[k];
    }
  }

  method IndexOrderOf<T(!new)>(store: Vectors<T>, v: nat, cmp: (T, T) -> int, item: T)
    returns (index: Option<nat>, order: nat)
    requires store.Valid() && v in store.vecs && TotalPreorder(cmp) && Sorted(cmp, Keys(store, v))
    ensures Found(cmp, Keys(store, v), item, index, order)
  {
    ghost var s := Keys(store, v);
    var l: int, h: int := 0, store.vecs[v].count - 1;
    while l <= h
      invariant 0 <= l <= h + 1 <= |s|
      invariant forall i :: 0 <= i < l ==> cmp(s[i], item) < 0
      invariant forall i :: h < i < |s| ==> cmp(s[i], item) > 0
      decreases h - l
    {
      var mid := l + (h - l) / 2;
      KeysAt(store, v, mid);
      Beside(cmp, s, item, mid);
      var c := cmp(store.Slots(v)[mid].value, item);
      if c == 0 {
        return Some(mid), mid;
      } else if c < 0 {
        l := mid + 1;
      } else {
        h := mid - 1;
      }
    }
    return None, l;
  }

  lemma LivesParts<T>(s: seq<T>, i: nat, items: seq<T>, j: nat)
    requires i <= |s| && j <= |s|
    ensures Lives(s)[..i] + Lives(items) + Lives(s)[j..] == Lives(s[..i] + items + s[j..])
    ensures Lives(s)[..i] + Lives(s)[j..] == Lives(s[..i] + s[j..])
  {
  }

  method InsertKey<T>(store: Vectors<T>, v: nat, item: T, order: nat) returns (r: Status)
    requires store.Valid() && v in store.vecs && order <= store.vecs[v].count
    modifies store
    ensures store.Valid() && OthersKept(old(store.heap), old(store.vecs), store.heap, store.vecs, v)
    ensures r == Index(order) && Keys(store, v) == old(Keys(store, v))[..order] + [item] + old(Keys(store, v))[order..]
  {
    ghost var s := Keys(store, v);
    r := store.Insert(v, [item], order);
    LivesParts(s, order, [item], order);
    KeysAre(store, v, s[..order] + [item] + s[order..]);
  }

  method ReplaceKey<T>(store: Vectors<T>, v: nat, item: T, index: nat) returns (r: Status)
    requires store.Valid() && v in store.vecs && index < store.vecs[v].count
    modifies store
    ensures store.Valid() && OthersKept(old(store.heap), old(store.vecs), store.heap, store.vecs, v)
    ensures r == Index(index) && Keys(store, v) == old(Keys(store, v))[index := item]
  {
    ghost var s := Keys(store, v);
    r := store.ReplaceAt(v, item, index);
    KeysAre(store, v, s[index := item]);
  }

  method RemoveKey<T>(store: Vectors<T>, v: nat, index: nat)
    requires store.Valid() && v in store.vecs && index < store.vecs[v].count
    modifies store
    ensures store.Valid() && OthersKept(old(store.heap), old(store.vecs), store.heap, store.vecs, v)
    ensures Keys(store, v) == old(Keys(store, v))[..index] + old(Keys(store, v))[index + 1..]
  {
    ghost var s := Keys(store, v);
    var r := store.RemoveItemsAt(v, index, 1);
    LivesParts(s, index, [], index + 1);
    KeysAre(store, v, s[..index] + s[index + 1..]);
  }

  /** The item has replaced an equal element, or stands at its insertion point. */
  ghost predicate Added<T>(cmp: (T, T) -> int, s: seq<T>, item: T, k: nat, t: seq<T>) {
    || (k < |s| && cmp(s[k], item) == 0 && t == s[k := item])
    || (InsertionPoint(cmp, s, item, k) && t == s[..k] + [item] + s[k..])
  }

  lemma AddedSorted<T(!new)>(cmp: (T, T) -> int, s: seq<T>, item: T, k: nat, t: seq<T>)
    requires TotalPreorder(cmp) && Sorted(cmp, s) && Added(cmp, s, item, k, t)
    ensures Sorted(cmp, t)
  {
    if k < |s| && cmp(s[k], item) == 0 && t == s[k := item] {
      forall i, j | 0 <= i < j < |t| ensures cmp(t[i], t[j]) <= 0 {
        assert cmp(s[i], s[j]) <= 0;
        EqualTransitive(cmp, s[k], item, s[k]);
        if j == k { assert Consistent(cmp, s[i], s[k], item); }
        if i == k { assert Consistent(cmp, item, s[k], s[j]); }
      }
    } else {
      forall i, j | 0 <= i < j < |t| ensures cmp(t[i], t[j]) <= 0 {
        if j == k || i == k { Less(cmp, t[j], t[i], t[j]); }
      }
    }
  }

  lemma AddedStrict<T(!new)>(cmp: (T, T) -> int, s: seq<T>, item: T, k: nat, t: seq<T>)
    requires TotalPreorder(cmp) && Strict(cmp, s) && Added(cmp, s, item, k, t)
    ensures Strict(cmp, t) && forall e :: Lookup(cmp, t, e) == Lookup(cmp, s + [item], e)
  {
    if k < |s| && cmp(s[k], item) == 0 && t == s[k := item] {
      ReplaceIsAdd(cmp, s, item, k, t);
    } else {
      InsertIsAdd(cmp, s, item, k, t);
    }
  }

  /** add(): where an equal element is found it is replaced. On a strict vector that is the map with the item in it. */
  method Add<T(!new)>(store: Vectors<T>, v: nat, cmp: (T, T) -> int, item: T) returns (r: Status)
    requires store.Valid() && v in store.vecs && TotalPreorder(cmp) && Sorted(cmp, Keys(store, v))
    modifies store
    ensures store.Valid() && OthersKept(old(store.heap), old(store.vecs), store.heap, store.vecs, v)
    ensures r.Index? && r.index < |Keys(store, v)| && Keys(store, v)[r.index] == item
    ensures Added(cmp, old(Keys(store, v)), item, r.index, Keys(store, v)) && Sorted(cmp, Keys(store, v))
    ensures Strict(cmp, old(Keys(store, v))) ==>
      Strict(cmp, Keys(store, v)) &&
      forall e :: Lookup(cmp, Keys(store, v), e) == Lookup(cmp, old(Keys(store, v)) + [item], e)
  {
    ghost var s := Keys(store, v);
    var index, order := IndexOrderOf(store, v, cmp, item);
    if index.None? {
      r := InsertKey(store, v, item, order);
    } else {
      r := ReplaceKey(store, v, item, index.value);
    }
    AddedSorted(cmp, s, item, r.index, Keys(store, v));
    if Strict(cmp, s) { AddedStrict(cmp, s, item, r.index, Keys(store, v)); }
  }

  lemma RemovedSorted<T(!new)>(cmp: (T, T) -> int, s: seq<T>, item: T, k: nat, r: seq<T>)
    requires TotalPreorder(cmp) && Sorted(cmp, s) && k < |s| && cmp(s[k], item) == 0 && r == s[..k] + s[k + 1..]
    ensures Sorted(cmp, r)
    ensures Strict(cmp, s) ==>
      Strict(cmp, r) && forall e :: Lookup(cmp, r, e) == if cmp(item, e) == 0 then None else Lookup(cmp, s, e)
  {
    if Strict(cmp, s) { RemoveIsErase(cmp, s, item, k, r); }
  }

  /** remove(): an equal element goes, if there is one. On a strict vector that leaves the map without the item. */
  method Remove<T(!new)>(store: Vectors<T>, v: nat, cmp: (T, T) -> int, item: T) returns (index: Option<nat>)
    requires store.Valid() && v in store.vecs && TotalPreorder(cmp) && Sorted(cmp, Keys(store, v))
    modifies store
    ensures store.Valid() && OthersKept(old(store.heap), old(store.vecs), store.heap, store.vecs, v)
    ensures Sorted(cmp, Keys(store, v))
    ensures var s := old(Keys(store, v));
      match index
      case None => Keys(store, v) == s && Lookup(cmp, s, item) == None
      case Some(k) => k < |s| && cmp(s[k], item) == 0 && Keys(store, v) == s[..k] + s[k + 1..]
    ensures Strict(cmp, old(Keys(store, v))) ==>
      && Strict(cmp, Keys(store, v))
      && forall e ::
        Lookup(cmp, Keys(store, v), e) == if cmp(item, e) == 0 then None else Lookup(cmp, old(Keys(store, v)), e)
  {
    ghost var s := Keys(store, v);
    var order;
    index, order := IndexOrderOf(store, v, cmp, item);
    if index.Some? {
      var k := index.value;
      RemoveKey(store, v, k);
      RemovedSorted(cmp, s, item, k, Keys(store, v));
    } else {
      AbsentLookup(cmp, s, item, order);
    }
  }

  lemma AbsentLookup<T(!new)>(cmp: (T, T) -> int, s: seq<T>, item: T, order: nat)
    requires TotalPreorder(cmp) && InsertionPoint(cmp, s, item, order)
    ensures Lookup(cmp, s, item) == None
    ensures forall e :: cmp(item, e) == 0 ==> Lookup(cmp, s, e) == None
  {
    LookupNone(cmp, s, item);
    forall e | cmp(item, e) == 0 ensures Lookup(cmp, s, e) == None {
      LookupNone(cmp, s, e);
      forall i | 0 <= i < |s| ensures cmp(s[i], e) != 0 {
        EqualTransitive(cmp, s[i], e, item);
        EqualTransitive(cmp, e, item, e);
      }
    }
  }

  /** What holds of merge() after i items, which began in heap0 and vecs0 with s and merges t. */
  ghost predicate Merging<T(!new)>(store: Vectors<T>, v: nat, w: nat, cmp: (T, T) -> int, heap0: Heap<T>, vecs0: Vecs,
      s: seq<T>, t: seq<T>, i: nat)
    reads store
  {
    && store.Valid() && v in store.vecs && w in store.vecs
    && OthersKept(heap0, vecs0, store.heap, store.vecs, v)
    && Keys(store, w) == t && i <= |t| && Sorted(cmp, Keys(store, v))
    && (Strict(cmp, s) ==> AddedUp(cmp, s, t, i, Keys(store, v)))
  }

  /** One round of merge(): item i of w is added. */
  method AddNth<T(!new)>(store: Vectors<T>, v: nat, w: nat, cmp: (T, T) -> int, i: nat,
      ghost heap0: Heap<T>, ghost vecs0: Vecs, ghost s: seq<T>, ghost t: seq<T>)
    requires Merging(store, v, w, cmp, heap0, vecs0, s, t, i) && TotalPreorder(cmp) && v != w && w in vecs0 && i < |t|
    modifies store
    ensures Merging(store, v, w, cmp, heap0, vecs0, s, t, i + 1) && store.vecs[w].count == old(store.vecs)[w].count
  {
    ghost var u, heap1, vecs1 := Keys(store, v), store.heap, store.vecs;
    KeysAt(store, w, i);
    var r := Add(store, v, cmp, store.Slots(w)[i].value);
    KeptTwice(heap0, vecs0, heap1, vecs1, store.heap, store.vecs, v);
    if Strict(cmp, s) { AddsUp(cmp, s, t, i, u, Keys(store, v)); }
  }

  /** merge() with any vector: its items are added one by one. */
  method MergeVector<T(!new)>(store: Vectors<T>, v: nat, w: nat, cmp: (T, T) -> int)
    requires store.Valid() && v in store.vecs && w in store.vecs && v != w
    requires TotalPreorder(cmp) && Sorted(cmp, Keys(store, v))
    modifies store
    ensures store.Valid() && OthersKept(old(store.heap), old(store.vecs), store.heap, store.vecs, v)
    ensures Sorted(cmp, Keys(store, v))
    ensures Strict(cmp, old(Keys(store, v))) ==>
      && Strict(cmp, Keys(store, v))
      && forall e :: Lookup(cmp, Keys(store, v), e) == Lookup(cmp, old(Keys(store, v)) + old(Keys(store, w)), e)
  {
    ghost var s, t, heap0, vecs0 := Keys(store, v), Keys(store, w), store.heap, store.vecs;
    var n, i := store.vecs[w].count, 0;
    assert s + t[..0] == s && t[..n] == t;
    while i < n
      invariant i <= n == |t| && w in vecs0 && Merging(store, v, w, cmp, heap0, vecs0, s, t, i)
    {
      AddNth(store, v, w, cmp, i, heap0, vecs0, s, t);
      i := i + 1;
    }
  }

  /** The first i items of t have been added to the map s. */
  ghost predicate AddedUp<T(!new)>(cmp: (T, T) -> int, s: seq<T>, t: seq<T>, i: nat, u: seq<T>) {
    i <= |t| && Strict(cmp, u) && forall e :: Lookup(cmp, u, e) == Lookup(cmp, s + t[..i], e)
  }

  lemma AddsUp<T(!new)>(cmp: (T, T) -> int, s: seq<T>, t: seq<T>, i: nat, u: seq<T>, r: seq<T>)
    requires i < |t| && AddedUp(cmp, s, t, i, u)
    requires Strict(cmp, r) && forall e :: Lookup(cmp, r, e) == Lookup(cmp, u + [t[i]], e)
    ensures AddedUp(cmp, s, t, i + 1, r)
  {
    assert s + t[..i + 1] == (s + t[..i]) + [t[i]];
    forall e ensures Lookup(cmp, r, e) == Lookup(cmp, s + t[..i + 1], e) {
      LookupConcat(cmp, u, [t[i]], e);
      LookupConcat(cmp, s + t[..i], [t[i]], e);
    }
  }

  /** The two fast paths of merge(): whole vectors that come before or after each other. */
  predicate Before<T>(cmp: (T, T) -> int, a: seq<T>, b: seq<T>)
    requires a != [] && b != []
  {
    cmp(a[|a| - 1], b[0]) <= 0
  }

  lemma Appended<T(!new)>(cmp: (T, T) -> int, a: seq<T>, b: seq<T>)
    requires TotalPreorder(cmp) && Strict(cmp, a) && Strict(cmp, b) && a != [] && b != [] && Before(cmp, a, b)
    ensures Sorted(cmp, a + b)
    ensures Strict(cmp, a + b) <==> cmp(a[|a| - 1], b[0]) != 0
  {
    var x, y := a[|a| - 1], b[0];
    forall i, j | 0 <= i < |a| && 0 <= j < |b|
      ensures cmp(a[i], b[j]) <= 0 && (cmp(x, y) < 0 || i < |a| - 1 || j > 0 ==> cmp(a[i], b[j]) < 0)
    {
      if i < |a| - 1 { Less(cmp, a[i], x, y); }
      if j > 0 { Less(cmp, x, y, b[j]); Less(cmp, a[i], y, b[j]); }
    }
    if cmp(x, y) == 0 {
      assert (a + b)[|a| - 1] == x && (a + b)[|a|] == y;
    } else {
      forall i, j | 0 <= i < j < |a + b| ensures cmp((a + b)[i], (a + b)[j]) < 0 {
      }
    }
    forall i, j | 0 <= i < j < |a + b| ensures cmp((a + b)[i], (a + b)[j]) <= 0 {
    }
  }

  /** The fast paths are taken on vectors that meet in equal elements: both stay. */
  ghost predicate Meet<T>(cmp: (T, T) -> int, s: seq<T>, t: seq<T>)
    requires t != [] ==> s != []
  {
    t != [] && (cmp(t[|t| - 1], s[0]) == 0 || (cmp(t[|t| - 1], s[0]) > 0 && cmp(t[0], s[|s| - 1]) == 0))
  }

  /** The union of the keys in order, strictly unless the vectors meet. Of two equal items the one of t is found,
      unless the vectors meet in s's first key: then the fast path has put t's before it. */
  ghost predicate Merged<T(!new)>(cmp: (T, T) -> int, s: seq<T>, t: seq<T>, r: seq<T>)
    requires t != [] ==> s != []
  {
    && Sorted(cmp, r) && (Strict(cmp, r) <==> !Meet(cmp, s, t))
    && (forall e :: Lookup(cmp, r, e).Some? <==> (Lookup(cmp, s, e).Some? || Lookup(cmp, t, e).Some?))
    && forall e :: Lookup(cmp, r, e) == Lookup(cmp, if t != [] && cmp(t[|t| - 1], s[0]) == 0 then t + s else s + t, e)
  }

  lemma LookupDisjoint<T(!new)>(cmp: (T, T) -> int, a: seq<T>, b: seq<T>, e: T)
    requires TotalPreorder(cmp) && Strict(cmp, a + b)
    ensures Lookup(cmp, a + b, e) == Lookup(cmp, b + a, e)
  {
    LookupConcat(cmp, a, b, e);
    LookupConcat(cmp, b, a, e);
    LookupNone(cmp, a, e);
    LookupNone(cmp, b, e);
    if i, j :| 0 <= i < |a| && 0 <= j < |b| && cmp(a[i], e) == 0 && cmp(b[j], e) == 0 {
      assert (a + b)[i] == a[i] && (a + b)[|a| + j] == b[j];
      EqualTransitive(cmp, e, b[j], e);
      EqualTransitive(cmp, a[i], e, b[j]);
    }
  }

  lemma LookupUnion<T(!new)>(cmp: (T, T) -> int, s: seq<T>, t: seq<T>)
    ensures forall e :: Lookup(cmp, s + t, e).Some? <==> Lookup(cmp, s, e).Some? || Lookup(cmp, t, e).Some?
  {
    forall e ensures Lookup(cmp, s + t, e).Some? <==> Lookup(cmp, s, e).Some? || Lookup(cmp, t, e).Some? {
      LookupConcat(cmp, s, t, e);
    }
  }

  lemma MergedFront<T(!new)>(cmp: (T, T) -> int, s: seq<T>, t: seq<T>)
    requires TotalPreorder(cmp) && Strict(cmp, s) && Strict(cmp, t) && s != [] && t != [] && Before(cmp, t, s)
    ensures Merged(cmp, s, t, t + s)
  {
    LookupUnion(cmp, t, s);
    Less(cmp, t[0], s[|s| - 1], t[0]);
    Less(cmp, t[|t| - 1], s[0], s[|s| - 1]);
    Appended(cmp, t, s);
    if cmp(t[|t| - 1], s[0]) != 0 {
      forall e ensures Lookup(cmp, t + s, e) == Lookup(cmp, s + t, e) { LookupDisjoint(cmp, t, s, e); }
    }
  }

  lemma MergedBack<T(!new)>(cmp: (T, T) -> int, s: seq<T>, t: seq<T>)
    requires TotalPreorder(cmp) && Strict(cmp, s) && Strict(cmp, t) && s != [] && t != []
    requires !Before(cmp, t, s) && cmp(t[0], s[|s| - 1]) >= 0
    ensures Merged(cmp, s, t, s + t)
  {
    LookupUnion(cmp, s, t);
    Less(cmp, t[0], s[|s| - 1], t[0]);
    Less(cmp, s[|s| - 1], t[0], s[|s| - 1]);
    Appended(cmp, s, t);
  }

  lemma MergedOneByOne<T(!new)>(cmp: (T, T) -> int, s: seq<T>, t: seq<T>, r: seq<T>)
    requires t != [] ==> s != []
    requires !Meet(cmp, s, t) && Strict(cmp, r) && forall e :: Lookup(cmp, r, e) == Lookup(cmp, s + t, e)
    ensures Merged(cmp, s, t, r)
  {
    LookupUnion(cmp, s, t);
  }

  /** merge() with a sorted vector. */
  method Merge<T(!new)>(store: Vectors<T>, v: nat, w: nat, cmp: (T, T) -> int)
    requires store.Valid() && v in store.vecs && w in store.vecs && v != w
    requires TotalPreorder(cmp) && Strict(cmp, Keys(store, v)) && Strict(cmp, Keys(store, w))
    requires Keys(store, w) != [] ==> Keys(store, v) != []
    modifies store
    ensures store.Valid() && OthersKept(old(store.heap), old(store.vecs), store.heap, store.vecs, v)
    ensures Merged(cmp, old(Keys(store, v)), old(Keys(store, w)), Keys(store, v))
  {
    ghost var s, t := Keys(store, v), Keys(store, w);
    var m, n := store.vecs[v].count, store.vecs[w].count;
    if n == 0 {
      assert s + t == s;
      MergedOneByOne(cmp, s, t, s);
    } else {
      KeysAt(store, w, 0);
      KeysAt(store, w, n - 1);
      KeysAt(store, v, 0);
      KeysAt(store, v, m - 1);
      if cmp(store.Slots(w)[n - 1].value, store.Slots(v)[0].value) <= 0 {
        MergedFront(cmp, s, t);
        InsertFront(store, v, w);
      } else if cmp(store.Slots(w)[0].value, store.Slots(v)[m - 1].value) >= 0 {
        MergedBack(cmp, s, t);
        InsertBack(store, v, w);
      } else {
        MergeVector(store, v, w, cmp);
        MergedOneByOne(cmp, s, t, Keys(store, v));
      }
    }
  }

  /** insertVectorAt(), of another vector. */
  method InsertKeys<T>(store: Vectors<T>, v: nat, w: nat, index: nat)
    requires store.Valid() && v in store.vecs && w in store.vecs && v != w && index <= store.vecs[v].count
    modifies store
    ensures store.Valid() && OthersKept(old(store.heap), old(store.vecs), store.heap, store.vecs, v)
    ensures Keys(store, v) == old(Keys(store, v))[..index] + old(Keys(store, w)) + old(Keys(store, v))[index..]
  {
    ghost var s, t := Keys(store, v), Keys(store, w);
    var r := store.InsertVectorAt(v, w, index);
    LivesParts(s, index, t, index);
    KeysAre(store, v, s[..index] + t + s[index..]);
  }

  lemma SplicedAtEnds<T>(s: seq<T>, t: seq<T>)
    ensures s[..0] + t + s[0..] == t + s && s[..|s|] + t + s[|s|..] == s + t
  {
    assert s[..|s|] == s && s[|s|..] == [];
  }

  method InsertFront<T>(store: Vectors<T>, v: nat, w: nat)
    requires store.Valid() && v in store.vecs && w in store.vecs && v != w
    modifies store
    ensures store.Valid() && OthersKept(old(store.heap), old(store.vecs), store.heap, store.vecs, v)
    ensures Keys(store, v) == old(Keys(store, w)) + old(Keys(store, v))
  {
    ghost var s, t := Keys(store, v), Keys(store, w);
    InsertKeys(store, v, w, 0);
    SplicedAtEnds(s, t);
  }

  method InsertBack<T>(store: Vectors<T>, v: nat, w: nat)
    requires store.Valid() && v in store.vecs && w in store.vecs && v != w
    modifies store
    ensures store.Valid() && OthersKept(old(store.heap), old(store.vecs), store.heap, store.vecs, v)
    ensures Keys(store, v) == old(Keys(store, v)) + old(Keys(store, w))
  {
    ghost var s, t := Keys(store, v), Keys(store, w);
    InsertKeys(store, v, w, store.vecs[v].count);
    SplicedAtEnds(s, t);
  }
}
