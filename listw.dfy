/**
 * The generic cursor list of listw/listw.go: the appended items, the
 * filtered and sorted view that is shown, and a cursor into that view.
 */
module Listw {
  import opened Wrappers

  /** The elements of `s` that satisfy `f`, in their order. */
  function Filter<T(!new)>(s: seq<T>, f: T -> bool): seq<T> {
    if s == [] then [] else Filter(s[..|s| - 1], f) + (if f(s[|s| - 1]) then [s[|s| - 1]] else [])
  }

  lemma {:induction false} FilterMember<T(!new)>(s: seq<T>, f: T -> bool, x: T)
    ensures x in Filter(s, f) <==> x in s && f(x)
  {
    if s != [] {
      var init := s[..|s| - 1];
      assert s == init + [s[|s| - 1]];
      FilterMember(init, f, x);
    }
  }

  /** Each kept element is kept as often as it occurs. */
  lemma {:induction false} FilterCount<T(!new)>(s: seq<T>, f: T -> bool, x: T)
    ensures multiset(Filter(s, f))[x] == if f(x) then multiset(s)[x] else 0
  {
    if s != [] {
      var init := s[..|s| - 1];
      assert s == init + [s[|s| - 1]];
      FilterCount(init, f, x);
    }
  }

  lemma {:induction false} FilterConcat<T(!new)>(a: seq<T>, b: seq<T>, f: T -> bool)
    ensures Filter(a + b, f) == Filter(a, f) + Filter(b, f)
    decreases |b|
  {
    if b != [] {
      var init := b[..|b| - 1];
      assert (a + b)[..|a + b| - 1] == a + init;
      assert (a + b)[|a + b| - 1] == b[|b| - 1];
      FilterConcat(a, init, f);
    } else {
      assert a + b == a;
    }
  }

  /**
   * The conditions slices.SortStableFunc puts on `cmp`: the sign is
   * antisymmetric and "not after" (cmp <= 0) is transitive, so it is a total
   * preorder whose classes are the elements comparing equal.
   */
  ghost predicate TotalPreorder<T(!new)>(cmp: (T, T) -> int) {
    && (forall a, b :: cmp(a, b) < 0 <==> cmp(b, a) > 0)
    && (forall a, b, c {:trigger NotAfter(cmp, a, b), NotAfter(cmp, b, c)} ::
          NotAfter(cmp, a, b) && NotAfter(cmp, b, c) ==> cmp(a, c) <= 0)
  }

  /** `a` may stay before `b`. */
  ghost predicate NotAfter<T(!new)>(cmp: (T, T) -> int, a: T, b: T) {
    cmp(a, b) <= 0
  }

  lemma Transitive<T(!new)>(cmp: (T, T) -> int, a: T, b: T, c: T)
    requires TotalPreorder(cmp)
    requires cmp(a, b) <= 0 && cmp(b, c) <= 0
    ensures cmp(a, c) <= 0
  {
    assert NotAfter(cmp, a, b) && NotAfter(cmp, b, c);
  }

  ghost predicate Sorted<T(!new)>(s: seq<T>, cmp: (T, T) -> int) {
    forall i, j :: 0 <= i < j < |s| ==> cmp(s[i], s[j]) <= 0
  }

  /** The elements of `s` that compare equal to `x`, in their order. */
  function Ties<T(!new)>(s: seq<T>, cmp: (T, T) -> int, x: T): seq<T> {
    if s == [] then [] else (if cmp(s[0], x) == 0 then [s[0]] else []) + Ties(s[1..], cmp, x)
  }

  /** `e` placed after every element that is not after it, and before the rest. */
  function Insert<T(!new)>(s: seq<T>, e: T, cmp: (T, T) -> int): seq<T> {
    if s == [] then [e]
    else if cmp(s[0], e) <= 0 then [s[0]] + Insert(s[1..], e, cmp)
    else [e] + s
  }

  /** A stable insertion sort: the reference result of slices.SortStableFunc. */
  function SortStable<T(!new)>(s: seq<T>, cmp: (T, T) -> int): seq<T> {
    if s == [] then [] else Insert(SortStable(s[..|s| - 1], cmp), s[|s| - 1], cmp)
  }

  lemma {:induction false} InsertPermutes<T(!new)>(s: seq<T>, e: T, cmp: (T, T) -> int)
    ensures multiset(Insert(s, e, cmp)) == multiset(s) + multiset{e}
  {
    if s != [] && cmp(s[0], e) <= 0 {
      assert s == [s[0]] + s[1..];
      InsertPermutes(s[1..], e, cmp);
    }
  }

  /** Every element of a sorted sequence is not before its head. */
  lemma SortedHead<T(!new)>(s: seq<T>, cmp: (T, T) -> int, y: T)
    requires Sorted(s, cmp) && s != []
    requires y in s
    ensures cmp(s[0], y) <= 0 || y == s[0]
  {
    var j :| 0 <= j < |s| && s[j] == y;
  }

  lemma SortedTail<T(!new)>(s: seq<T>, cmp: (T, T) -> int)
    requires Sorted(s, cmp) && s != []
    ensures Sorted(s[1..], cmp)
  {
    var t := s[1..];
    forall i, j | 0 <= i < j < |t|
      ensures cmp(t[i], t[j]) <= 0
    {
      assert t[i] == s[i + 1] && t[j] == s[j + 1];
    }
  }

  lemma SortedCons<T(!new)>(a: T, t: seq<T>, cmp: (T, T) -> int)
    requires Sorted(t, cmp)
    requires forall y :: y in t ==> cmp(a, y) <= 0
    ensures Sorted([a] + t, cmp)
  {
    var s := [a] + t;
    forall i, j | 0 <= i < j < |s|
      ensures cmp(s[i], s[j]) <= 0
    {
      if i == 0 {
        assert s[j] == t[j - 1];
        assert s[j] in t;
      } else {
        assert s[i] == t[i - 1] && s[j] == t[j - 1];
      }
    }
  }

  lemma {:induction false} InsertSorted<T(!new)>(s: seq<T>, e: T, cmp: (T, T) -> int)
    requires TotalPreorder(cmp)
    requires Sorted(s, cmp)
    ensures Sorted(Insert(s, e, cmp), cmp)
  {
    if s == [] {
    } else if cmp(s[0], e) <= 0 {
      var t := s[1..];
      SortedTail(s, cmp);
      InsertSorted(t, e, cmp);
      InsertPermutes(t, e, cmp);
      forall y | y in Insert(t, e, cmp)
        ensures cmp(s[0], y) <= 0
      {
        assert y in multiset(Insert(t, e, cmp));
        if y != e {
          assert y in t;
          var j :| 0 <= j < |t| && t[j] == y;
          assert s[j + 1] == y;
        }
      }
      SortedCons(s[0], Insert(t, e, cmp), cmp);
    } else {
      forall y | y in s
        ensures cmp(e, y) <= 0
      {
        assert cmp(e, s[0]) < 0;
        SortedHead(s, cmp, y);
        if y != s[0] {
          Transitive(cmp, e, s[0], y);
        }
      }
      SortedCons(e, s, cmp);
    }
  }

  lemma {:induction false} TiesConcat<T(!new)>(a: seq<T>, b: seq<T>, cmp: (T, T) -> int, x: T)
    ensures Ties(a + b, cmp, x) == Ties(a, cmp, x) + Ties(b, cmp, x)
  {
    if a != [] {
      assert (a + b)[0] == a[0];
      assert (a + b)[1..] == a[1..] + b;
      TiesConcat(a[1..], b, cmp, x);
    } else {
      assert a + b == b;
    }
  }

  /** Nothing in a sorted sequence that starts after `e` ties with an element that ties with `e`. */
  lemma {:induction false} TiesAfter<T(!new)>(s: seq<T>, e: T, cmp: (T, T) -> int, x: T)
    requires TotalPreorder(cmp)
    requires Sorted(s, cmp)
    requires s != [] && cmp(s[0], e) > 0
    requires cmp(e, x) == 0
    ensures Ties(s, cmp, x) == []
  {
    var h := s[0];
    assert cmp(x, e) == 0;
    forall y | y in s
      ensures cmp(y, x) != 0
    {
      SortedHead(s, cmp, y);
      if cmp(y, x) <= 0 {
        Transitive(cmp, y, x, e);
        if y != h {
          Transitive(cmp, h, y, e);
        }
      }
    }
    NoTies(s, cmp, x);
  }

  lemma {:induction false} NoTies<T(!new)>(s: seq<T>, cmp: (T, T) -> int, x: T)
    requires forall y :: y in s ==> cmp(y, x) != 0
    ensures Ties(s, cmp, x) == []
  {
    if s != [] {
      assert s[0] in s;
      assert forall y :: y in s[1..] ==> y in s;
      NoTies(s[1..], cmp, x);
    }
  }

  /** Inserting `e` into a sorted sequence puts it after the elements it ties with. */
  lemma {:induction false} InsertTies<T(!new)>(s: seq<T>, e: T, cmp: (T, T) -> int, x: T)
    requires TotalPreorder(cmp)
    requires Sorted(s, cmp)
    ensures Ties(Insert(s, e, cmp), cmp, x) == Ties(s, cmp, x) + Ties([e], cmp, x)
  {
    if s == [] {
    } else if cmp(s[0], e) <= 0 {
      var t := s[1..];
      SortedTail(s, cmp);
      InsertTies(t, e, cmp, x);
      assert s == [s[0]] + t;
      assert Insert(s, e, cmp) == [s[0]] + Insert(t, e, cmp);
      TiesConcat([s[0]], t, cmp, x);
      TiesConcat([s[0]], Insert(t, e, cmp), cmp, x);
    } else {
      InsertTiesFront(s, e, cmp, x);
    }
  }

  /** The case where `e` goes first: no element of `s` ties with an element that ties with `e`. */
  lemma InsertTiesFront<T(!new)>(s: seq<T>, e: T, cmp: (T, T) -> int, x: T)
    requires TotalPreorder(cmp)
    requires Sorted(s, cmp)
    requires s != [] && cmp(s[0], e) > 0
    ensures Ties(Insert(s, e, cmp), cmp, x) == Ties(s, cmp, x) + Ties([e], cmp, x)
  {
    TiesConcat([e], s, cmp, x);
    assert Insert(s, e, cmp) == [e] + s;
    if cmp(e, x) == 0 {
      TiesAfter(s, e, cmp, x);
    } else {
      assert [e][1..] == [];
      assert Ties([e], cmp, x) == [];
    }
  }

  /** SortStable's result is ordered by `cmp`. */
  lemma {:induction false} SortStableSorted<T(!new)>(s: seq<T>, cmp: (T, T) -> int)
    requires TotalPreorder(cmp)
    ensures Sorted(SortStable(s, cmp), cmp)
  {
    if s != [] {
      SortStableSorted(s[..|s| - 1], cmp);
      InsertSorted(SortStable(s[..|s| - 1], cmp), s[|s| - 1], cmp);
    }
  }

  /** SortStable's result is a permutation of its input. */
  lemma {:induction false} SortStablePermutes<T(!new)>(s: seq<T>, cmp: (T, T) -> int)
    ensures multiset(SortStable(s, cmp)) == multiset(s)
  {
    if s != [] {
      var init := s[..|s| - 1];
      assert s == init + [s[|s| - 1]];
      SortStablePermutes(init, cmp);
      InsertPermutes(SortStable(init, cmp), s[|s| - 1], cmp);
    }
  }

  /** SortStable keeps elements that compare equal in their prior relative order. */
  lemma {:induction false} SortStableStable<T(!new)>(s: seq<T>, cmp: (T, T) -> int, x: T)
    requires TotalPreorder(cmp)
    ensures Ties(SortStable(s, cmp), cmp, x) == Ties(s, cmp, x)
  {
    if s != [] {
      var init, last := s[..|s| - 1], s[|s| - 1];
      assert s == init + [last];
      SortStableStable(init, cmp, x);
      SortStableSorted(init, cmp);
      InsertTies(SortStable(init, cmp), last, cmp, x);
      TiesConcat(init, [last], cmp, x);
    }
  }

  function Min(a: int, b: int): int { if a < b then a else b }

  function Max(a: int, b: int): int { if a < b then b else a }

  class List<T(!new)> {
    var index: int
    var items: seq<T>
    var filtered: seq<T>

    /**
     * The cursor is at most one before the first position and never past
     * the last one (0 when the view is empty, as the list starts).
     */
    ghost predicate Valid()
      reads this
    {
      -1 <= index <= Max(0, |filtered| - 1)
    }

    /** New: an empty list with the cursor at 0. */
    constructor ()
      ensures index == 0 && items == [] && filtered == []
      ensures Valid()
    {
      index := 0;
      items := [];
      filtered := [];
    }

    method Append(more: seq<T>)
      modifies this`items
      ensures items == old(items) + more
    {
      items := items + more;
    }

    /**
     * FilterFunc: the view becomes the items that satisfy `f`, in order; a
     * cursor at or past the end of the new view moves to its last position.
     */
    method FilterFunc(f: T -> bool)
      modifies this`filtered, this`index
      ensures filtered == Filter(items, f)
      ensures old(index) >= |filtered| ==> index == |filtered| - 1
      ensures old(index) < |filtered| ==> index == old(index)
      ensures old(index) >= -1 ==> Valid()
    {
      filtered := [];
      for i := 0 to |items|
        invariant filtered == Filter(items[..i], f)
        invariant index == old(index)
      {
        assert items[..i + 1][..i] == items[..i];
        if f(items[i]) {
          filtered := filtered + [items[i]];
        }
      }
      assert items[..|items|] == items;
      if index >= |filtered| {
        End();
      }
    }

    /** SortFunc: the view sorted stably by `cmp`. */
    method SortFunc(cmp: (T, T) -> int)
      modifies this`filtered
      ensures filtered == SortStable(old(filtered), cmp)
      ensures multiset(filtered) == multiset(old(filtered))
      ensures TotalPreorder(cmp) ==> Sorted(filtered, cmp)
      ensures TotalPreorder(cmp) ==> forall x :: Ties(filtered, cmp, x) == Ties(old(filtered), cmp, x)
    {
      ghost var before := filtered;
      SortStablePermutes(filtered, cmp);
      filtered := SortStable(filtered, cmp);
      if TotalPreorder(cmp) {
        SortStableSorted(before, cmp);
        forall x
          ensures Ties(filtered, cmp, x) == Ties(before, cmp, x)
        {
          SortStableStable(before, cmp, x);
        }
      }
    }

    /** The item under the cursor, if the cursor is on one. */
    function ActiveItem(): (r: Option<T>)
      reads this
      ensures r.Some? <==> 0 <= index < |filtered|
      ensures r.Some? ==> r.value == filtered[index]
    {
      if 0 <= index < |filtered| then Some(filtered[index]) else None
    }

    /** In a valid state the cursor is on an item exactly when the view is non-empty and it is not before it. */
    lemma ActiveWhenValid()
      requires Valid()
      ensures ActiveItem().Some? <==> |filtered| > 0 && index >= 0
    {
    }

    method Down()
      modifies this`index
      ensures index == Min(|filtered| - 1, old(index) + 1)
      ensures index <= |filtered| - 1
      ensures old(Valid()) ==> Valid()
      ensures old(Valid()) && |filtered| > 0 ==> 0 <= index < |filtered|
    {
      index := Min(|filtered| - 1, index + 1);
    }

    method Up()
      modifies this`index
      ensures index == Max(0, old(index) - 1)
      ensures index >= 0
      ensures old(Valid()) ==> Valid()
      ensures old(Valid()) && |filtered| > 0 ==> 0 <= index < |filtered|
    {
      index := Max(0, index - 1);
    }

    method Home()
      modifies this`index
      ensures index == 0
      ensures Valid()
    {
      index := 0;
    }

    method End()
      modifies this`index
      ensures index == |filtered| - 1
      ensures Valid()
    {
      index := |filtered| - 1;
    }

    /** PageDown by the window height. */
    method PageDown(height: nat)
      modifies this`index
      ensures index == Min(|filtered| - 1, old(index) + height)
      ensures index <= |filtered| - 1
      ensures old(Valid()) ==> Valid()
      ensures old(Valid()) && |filtered| > 0 && old(index) + height >= 0 ==> 0 <= index < |filtered|
    {
      index := Min(|filtered| - 1, index + height);
    }

    /** PageUp by the window height. */
    method PageUp(height: nat)
      modifies this`index
      ensures index == Max(0, old(index) - height)
      ensures index >= 0
      ensures old(Valid()) ==> Valid()
      ensures old(Valid()) && |filtered| > 0 ==> 0 <= index < |filtered|
    {
      index := Max(0, index - height);
    }
  }

  /**
   * A filter that empties the view moves the cursor to -1, and a later
   * filter that fills it again leaves it there: no item is active until
   * the cursor is moved.
   */
  method CursorLostAfterEmptyFilter<T(!new)>(x: T) returns (active: Option<T>, view: seq<T>, index: int)
    ensures view == [x] && index == -1 && active == None
  {
    var l := new List<T>();
    l.Append([x]);
    l.FilterFunc(_ => false);
    assert Filter([x], _ => false) == [];
    l.FilterFunc(_ => true);
    assert Filter([x], _ => true) == [x];
    active := l.ActiveItem();
    view := l.filtered;
    index := l.index;
  }
}
