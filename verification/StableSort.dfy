/** Insertion sort as a function, and what makes it the stable sort. */
module StableSort {

  /** cmp(a, b) > 0 says that a belongs after b. */
  function InsertInto<T>(cmp: (T, T) -> int, s: seq<T>, x: T): (r: seq<T>)
    ensures |r| == |s| + 1
  {
    if s != [] && cmp(s[|s| - 1], x) > 0 then InsertInto(cmp, s[..|s| - 1], x) + [s[|s| - 1]] else s + [x]
  }

  function InsertionSort<T>(cmp: (T, T) -> int, s: seq<T>): (r: seq<T>)
    ensures |r| == |s|
  {
    if s == [] then [] else InsertInto(cmp, InsertionSort(cmp, s[..|s| - 1]), s[|s| - 1])
  }

  /** What cmp says of three elements if it is a total preorder; it may call different elements equal. */
  ghost predicate Consistent<T>(cmp: (T, T) -> int, a: T, b: T, c: T) {
    && (cmp(a, b) > 0 <==> cmp(b, a) < 0)
    && (cmp(a, b) <= 0 && cmp(b, c) <= 0 ==> cmp(a, c) <= 0)
  }

  ghost predicate TotalPreorder<T(!new)>(cmp: (T, T) -> int) {
    forall a, b, c :: Consistent(cmp, a, b, c)
  }

  ghost predicate Sorted<T>(cmp: (T, T) -> int, s: seq<T>) {
    forall i, j :: 0 <= i < j < |s| ==> cmp(s[i], s[j]) <= 0
  }

  /** The elements that cmp calls equal to e, in order. */
  function Equals<T>(cmp: (T, T) -> int, s: seq<T>, e: T): seq<T> {
    if s == [] then []
    else
      var last := s[|s| - 1];
      Equals(cmp, s[..|s| - 1], e) + (if cmp(last, e) == 0 then [last] else [])
  }

  ghost predicate SameEquals<T(!new)>(cmp: (T, T) -> int, a: seq<T>, b: seq<T>) {
    forall e :: Equals(cmp, a, e) == Equals(cmp, b, e)
  }

  lemma {:induction false} InsertIntoPermutes<T>(cmp: (T, T) -> int, s: seq<T>, x: T)
    ensures multiset(InsertInto(cmp, s, x)) == multiset(s) + multiset{x}
  {
    if s != [] && cmp(s[|s| - 1], x) > 0 {
      InsertIntoPermutes(cmp, s[..|s| - 1], x);
      assert s == s[..|s| - 1] + [s[|s| - 1]];
    }
  }

  lemma SortedAppend<T>(cmp: (T, T) -> int, s: seq<T>, x: T)
    requires Sorted(cmp, s) && forall i :: 0 <= i < |s| ==> cmp(s[i], x) <= 0
    ensures Sorted(cmp, s + [x])
  {
  }

  lemma {:induction false} InsertIntoSorted<T(!new)>(cmp: (T, T) -> int, s: seq<T>, x: T)
    requires TotalPreorder(cmp) && Sorted(cmp, s)
    ensures Sorted(cmp, InsertInto(cmp, s, x))
  {
    if s == [] {
    } else {
      var last, init := s[|s| - 1], s[..|s| - 1];
      assert Consistent(cmp, last, x, x);
      if cmp(last, x) > 0 {
        InsertIntoSorted(cmp, init, x);
        var r := InsertInto(cmp, init, x);
        InsertIntoPermutes(cmp, init, x);
        assert Consistent(cmp, x, last, x);
        forall i | 0 <= i < |r| ensures cmp(r[i], last) <= 0 {
          assert r[i] in multiset(r);
          if r[i] != x { BelowLast(cmp, s, r[i]); }
        }
        SortedAppend(cmp, r, last);
      } else {
        forall i | 0 <= i < |s| ensures cmp(s[i], x) <= 0 {
          assert Consistent(cmp, s[i], last, x);
        }
        SortedAppend(cmp, s, x);
      }
    }
  }

  lemma BelowLast<T>(cmp: (T, T) -> int, s: seq<T>, y: T)
    requires Sorted(cmp, s) && s != [] && y in s[..|s| - 1]
    ensures cmp(y, s[|s| - 1]) <= 0
  {
    var j :| 0 <= j < |s| - 1 && s[..|s| - 1][j] == y;
  }

  lemma EqualsAppend<T>(cmp: (T, T) -> int, s: seq<T>, x: T, e: T)
    ensures Equals(cmp, s + [x], e) == Equals(cmp, s, e) + (if cmp(x, e) == 0 then [x] else [])
  {
    assert (s + [x])[..|s|] == s;
  }

  lemma {:induction false} InsertIntoStable<T(!new)>(cmp: (T, T) -> int, s: seq<T>, x: T, e: T)
    requires TotalPreorder(cmp)
    ensures Equals(cmp, InsertInto(cmp, s, x), e) == Equals(cmp, s + [x], e)
  {
    EqualsAppend(cmp, s, x, e);
    if s != [] && cmp(s[|s| - 1], x) > 0 {
      var last, init := s[|s| - 1], s[..|s| - 1];
      InsertIntoStable(cmp, init, x, e);
      EqualsAppend(cmp, init, x, e);
      EqualsAppend(cmp, InsertInto(cmp, init, x), last, e);
      // last and x cannot both equal e, or else cmp(last, x) would not be positive
      assert Consistent(cmp, last, e, x) && Consistent(cmp, e, x, e) && Consistent(cmp, x, e, x);
    }
  }

  /** The sort is sorted, a permutation, and leaves equal elements in their order. */
  lemma {:induction false} InsertionSortIsStableSort<T(!new)>(cmp: (T, T) -> int, s: seq<T>)
    requires TotalPreorder(cmp)
    ensures Sorted(cmp, InsertionSort(cmp, s))
    ensures multiset(InsertionSort(cmp, s)) == multiset(s)
    ensures SameEquals(cmp, InsertionSort(cmp, s), s)
  {
    if s != [] {
      var init, x := s[..|s| - 1], s[|s| - 1];
      InsertionSortIsStableSort(cmp, init);
      var r := InsertionSort(cmp, init);
      InsertIntoSorted(cmp, r, x);
      InsertIntoPermutes(cmp, r, x);
      assert s == init + [x];
      forall e ensures Equals(cmp, InsertInto(cmp, r, x), e) == Equals(cmp, s, e) {
        InsertIntoStable(cmp, r, x, e);
        EqualsAppend(cmp, r, x, e);
        assert Equals(cmp, r, e) == Equals(cmp, init, e);
      }
    }
  }

  lemma {:induction false} LastEqual<T(!new)>(cmp: (T, T) -> int, s: seq<T>, e: T)
    requires TotalPreorder(cmp) && Sorted(cmp, s) && Equals(cmp, s, e) != []
    ensures s != [] && cmp(e, s[|s| - 1]) <= 0
  {
    var last := s[|s| - 1];
    if cmp(last, e) != 0 {
      LastEqual(cmp, s[..|s| - 1], e);
      assert cmp(s[|s| - 2], last) <= 0;
      assert Consistent(cmp, e, s[|s| - 2], last);
    } else {
      assert Consistent(cmp, last, e, last) && Consistent(cmp, e, last, e);
    }
  }

  lemma OwnEqual<T(!new)>(cmp: (T, T) -> int, s: seq<T>)
    requires TotalPreorder(cmp) && s != []
    ensures var last := s[|s| - 1]; cmp(last, last) == 0 && Equals(cmp, s, last) != []
  {
    var last := s[|s| - 1];
    assert Consistent(cmp, last, last, last);
  }

  /** There is no other: two sorted sequences that agree on the order of equal elements are the same. */
  lemma {:induction false} StableSortUnique<T(!new)>(cmp: (T, T) -> int, a: seq<T>, b: seq<T>)
    requires TotalPreorder(cmp) && Sorted(cmp, a) && Sorted(cmp, b) && SameEquals(cmp, a, b)
    ensures a == b
    decreases |a|
  {
    if a != [] { OwnEqual(cmp, a); }
    if b != [] { OwnEqual(cmp, b); }
    if a != [] {
      var x, a' := a[|a| - 1], a[..|a| - 1];
      assert Equals(cmp, a, x) == Equals(cmp, b, x);
      LastEqual(cmp, b, x);
      var y, b' := b[|b| - 1], b[..|b| - 1];
      assert Equals(cmp, a, y) == Equals(cmp, b, y);
      LastEqual(cmp, a, y);
      assert Consistent(cmp, x, y, x) && Consistent(cmp, y, x, y);
      assert Equals(cmp, a, x) == Equals(cmp, a', x) + [x] && Equals(cmp, b, x) == Equals(cmp, b', x) + [y];
      assert x == y by {
        var ea, eb := Equals(cmp, a', x), Equals(cmp, b', x);
        assert (ea + [x])[|ea|] == x && (eb + [y])[|eb|] == y && |ea + [x]| == |eb + [y]|;
      }
      forall e ensures Equals(cmp, a', e) == Equals(cmp, b', e) {
        assert Equals(cmp, a, e) == Equals(cmp, b, e);
        SameInit(Equals(cmp, a', e), Equals(cmp, b', e), if cmp(x, e) == 0 then [x] else []);
      }
      StableSortUnique(cmp, a', b');
      assert a == a' + [x] && b == b' + [y];
    }
  }

  lemma SameInit<T>(a: seq<T>, b: seq<T>, t: seq<T>)
    requires a + t == b + t
    ensures a == b
  {
    assert |a + t| == |b + t|;
    assert a == (a + t)[..|a|] && b == (b + t)[..|b|];
  }

  ghost predicate InOrder<T>(cmp: (T, T) -> int, s: seq<T>) {
    forall i :: 0 < i < |s| ==> cmp(s[i - 1], s[i]) <= 0
  }

  lemma {:induction false} SortedIsFixed<T>(cmp: (T, T) -> int, s: seq<T>)
    requires InOrder(cmp, s)
    ensures InsertionSort(cmp, s) == s
  {
    if s != [] {
      SortedIsFixed(cmp, s[..|s| - 1]);
      assert s == s[..|s| - 1] + [s[|s| - 1]];
    }
  }

  // ----- what it costs

  /** How many elements x passes on its way down. */
  ghost function Passed<T>(cmp: (T, T) -> int, s: seq<T>, x: T): nat {
    if s != [] && cmp(s[|s| - 1], x) > 0 then 1 + Passed(cmp, s[..|s| - 1], x) else 0
  }

  /** The elements copied by sort(): those passed, and two more for every x that moves. */
  ghost function SortCopies<T>(cmp: (T, T) -> int, s: seq<T>): nat {
    if s == [] then 0
    else SortCopies(cmp, s[..|s| - 1]) + Round(Passed(cmp, InsertionSort(cmp, s[..|s| - 1]), s[|s| - 1]))
  }

  function Round(passed: nat): nat { if passed == 0 then 0 else passed + 2 }

  /** The elements of s that belong after x. */
  ghost function Greater<T>(cmp: (T, T) -> int, s: seq<T>, x: T): nat {
    if s == [] then 0 else Greater(cmp, s[..|s| - 1], x) + (if cmp(s[|s| - 1], x) > 0 then 1 else 0)
  }

  /** The pairs that are out of order. */
  ghost function Inversions<T>(cmp: (T, T) -> int, s: seq<T>): nat {
    if s == [] then 0 else Inversions(cmp, s[..|s| - 1]) + Greater(cmp, s[..|s| - 1], s[|s| - 1])
  }

  /** The elements that come after one they belong before. */
  ghost function Displaced<T>(cmp: (T, T) -> int, s: seq<T>): nat {
    if s == [] then 0
    else Displaced(cmp, s[..|s| - 1]) + (if Greater(cmp, s[..|s| - 1], s[|s| - 1]) > 0 then 1 else 0)
  }

  lemma InOrderInit<T>(cmp: (T, T) -> int, s: seq<T>)
    requires s != []
    ensures InOrder(cmp, s) <==> InOrder(cmp, s[..|s| - 1]) && (|s| > 1 ==> cmp(s[|s| - 2], s[|s| - 1]) <= 0)
  {
    var init := s[..|s| - 1];
    if InOrder(cmp, s) {
      forall i | 0 < i < |init| ensures cmp(init[i - 1], init[i]) <= 0 {
        assert cmp(s[i - 1], s[i]) <= 0;
      }
    } else {
      var i :| 0 < i < |s| && cmp(s[i - 1], s[i]) > 0;
      if i < |init| { assert init[i - 1] == s[i - 1] && init[i] == s[i]; }
    }
  }

  lemma {:induction false} NoCopies<T>(cmp: (T, T) -> int, s: seq<T>)
    ensures SortCopies(cmp, s) == 0 <==> InOrder(cmp, s)
  {
    if s != [] {
      var init := s[..|s| - 1];
      NoCopies(cmp, init);
      InOrderInit(cmp, s);
      if InOrder(cmp, init) { SortedIsFixed(cmp, init); }
    }
  }

  lemma {:induction false} GreaterInserted<T>(cmp: (T, T) -> int, s: seq<T>, y: T, x: T)
    ensures Greater(cmp, InsertInto(cmp, s, y), x) == Greater(cmp, s, x) + if cmp(y, x) > 0 then 1 else 0
  {
    var r := InsertInto(cmp, s, y);
    if s != [] && cmp(s[|s| - 1], y) > 0 {
      GreaterInserted(cmp, s[..|s| - 1], y, x);
      assert r[..|r| - 1] == InsertInto(cmp, s[..|s| - 1], y);
    } else {
      assert r[..|r| - 1] == s;
    }
  }

  lemma {:induction false} GreaterSorted<T>(cmp: (T, T) -> int, s: seq<T>, x: T)
    ensures Greater(cmp, InsertionSort(cmp, s), x) == Greater(cmp, s, x)
  {
    if s != [] {
      GreaterSorted(cmp, s[..|s| - 1], x);
      GreaterInserted(cmp, InsertionSort(cmp, s[..|s| - 1]), s[|s| - 1], x);
    }
  }

  lemma {:induction false} PassedIsGreater<T(!new)>(cmp: (T, T) -> int, s: seq<T>, x: T)
    requires TotalPreorder(cmp) && Sorted(cmp, s)
    ensures Passed(cmp, s, x) == Greater(cmp, s, x)
  {
    if s != [] {
      PassedIsGreater(cmp, s[..|s| - 1], x);
      if cmp(s[|s| - 1], x) <= 0 { NoneGreater(cmp, s, x); }
    }
  }

  lemma {:induction false} NoneGreater<T(!new)>(cmp: (T, T) -> int, s: seq<T>, x: T)
    requires TotalPreorder(cmp) && Sorted(cmp, s) && (s != [] ==> cmp(s[|s| - 1], x) <= 0)
    ensures Greater(cmp, s, x) == 0
  {
    if |s| > 1 {
      assert Consistent(cmp, s[|s| - 2], s[|s| - 1], x);
      NoneGreater(cmp, s[..|s| - 1], x);
    }
  }

  /** The copies are the inversions, and two for every displaced element: few for small and for sorted arrays. */
  lemma {:induction false} SortCopiesAre<T(!new)>(cmp: (T, T) -> int, s: seq<T>)
    requires TotalPreorder(cmp)
    ensures SortCopies(cmp, s) == Inversions(cmp, s) + 2 * Displaced(cmp, s)
  {
    if s != [] {
      var init, last := s[..|s| - 1], s[|s| - 1];
      SortCopiesAre(cmp, init);
      InsertionSortIsStableSort(cmp, init);
      PassedIsGreater(cmp, InsertionSort(cmp, init), last);
      GreaterSorted(cmp, init, last);
    }
  }
}
