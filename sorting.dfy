/** Stable sorting, as used by `Array.prototype.sort` with a comparator and by SQL
    `ORDER BY` (whose ties are taken to keep table order).

    A comparator is given as a relation `before`: `before(a, b)` holds when the
    comparator puts `a` strictly ahead of `b` (it returns a negative number). */
module Sorting {

  /** `x` placed ahead of the first element of `s` that does not strictly come
      before it; elements that tie with `x` stay behind it. */
  function Insert<T>(x: T, s: seq<T>, before: (T, T) -> bool): (r: seq<T>)
    ensures multiset(r) == multiset(s) + multiset{x}
    ensures |r| == |s| + 1
  {
    if s == [] || !before(s[0], x) then [x] + s
    else
      assert s == [s[0]] + s[1..];
      [s[0]] + Insert(x, s[1..], before)
  }

  /** Stable sort: insertion from the right, so of two tied elements the one
      earlier in `s` stays earlier. */
  function StableSort<T>(s: seq<T>, before: (T, T) -> bool): (r: seq<T>)
    ensures multiset(r) == multiset(s)
    ensures |r| == |s|
  {
    if s == [] then []
    else
      assert s == [s[0]] + s[1..];
      Insert(s[0], StableSort(s[1..], before), before)
  }

  /** The first `n` elements, or all of them (`Array.prototype.slice(0, n)`, SQL `LIMIT n`). */
  function Take<T>(s: seq<T>, n: nat): (r: seq<T>)
    ensures |r| == if |s| <= n then |s| else n
    ensures r <= s
  {
    if |s| <= n then s else s[..n]
  }

  /** The comparator is consistent: irreflexive, transitive, and ties are transitive. */
  ghost predicate StrictWeakOrder<T(!new)>(before: (T, T) -> bool) {
    && (forall a :: !before(a, a))
    && (forall a, b, c :: before(a, b) && before(b, c) ==> before(a, c))
    && (forall a, b, c :: !before(a, b) && !before(b, c) ==> !before(a, c))
  }

  /** No element is strictly ahead of an element that precedes it. */
  ghost predicate Sorted<T>(s: seq<T>, before: (T, T) -> bool) {
    forall i, j :: 0 <= i < j < |s| ==> !before(s[j], s[i])
  }

  /** Neither of `a` and `b` comes strictly before the other. */
  predicate Tied<T>(a: T, b: T, before: (T, T) -> bool) {
    !before(a, b) && !before(b, a)
  }

  /** The elements of `s` that tie with `e`, in their order in `s`. */
  function TiesWith<T>(s: seq<T>, e: T, before: (T, T) -> bool): (r: seq<T>)
    ensures |r| <= |s|
    ensures forall y :: y in r ==> y in s && Tied(y, e, before)
  {
    if s == [] then []
    else if Tied(s[0], e, before) then [s[0]] + TiesWith(s[1..], e, before)
    else TiesWith(s[1..], e, before)
  }

  /** The ties are a sub-multiset of the input: nothing is duplicated. */
  lemma {:induction false} TiesWithSubMultiset<T>(s: seq<T>, e: T, before: (T, T) -> bool)
    ensures multiset(TiesWith(s, e, before)) <= multiset(s)
  {
    if s != [] {
      assert s == [s[0]] + s[1..];
      TiesWithSubMultiset(s[1..], e, before);
    }
  }

  function MapSeq<A, B>(s: seq<A>, f: A -> B): (r: seq<B>)
    ensures |r| == |s|
    ensures forall i :: 0 <= i < |s| ==> r[i] == f(s[i])
  {
    if s == [] then [] else [f(s[0])] + MapSeq(s[1..], f)
  }

  /** The elements of `s` that satisfy `keep`, in order. */
  function Filter<T>(s: seq<T>, keep: T -> bool): (r: seq<T>)
    ensures |r| <= |s|
    ensures forall y :: y in r ==> y in s && keep(y)
    ensures forall y :: y in s && keep(y) ==> y in r
  {
    if s == [] then []
    else if keep(s[0]) then [s[0]] + Filter(s[1..], keep)
    else Filter(s[1..], keep)
  }

  /** Filtering keeps each element at most as often as it occurs. */
  lemma {:induction false} FilterSubMultiset<T>(s: seq<T>, keep: T -> bool)
    ensures multiset(Filter(s, keep)) <= multiset(s)
  {
    if s != [] {
      assert s == [s[0]] + s[1..];
      FilterSubMultiset(s[1..], keep);
    }
  }

  /** Nothing is kept when no element qualifies. */
  lemma {:induction false} FilterNone<T>(s: seq<T>, keep: T -> bool)
    requires forall i :: 0 <= i < |s| ==> !keep(s[i])
    ensures Filter(s, keep) == []
  {
    if s != [] {
      FilterNone(s[1..], keep);
    }
  }

  // ---------------------------------------------------------------------------
  // Insert at the position the in-place sort finds

  /** When the first `k` elements of `t` come strictly before `x` and the next
      one does not, `Insert` puts `x` at index `k`. */
  lemma {:induction false} InsertAt<T>(x: T, t: seq<T>, k: nat, before: (T, T) -> bool)
    requires k <= |t|
    requires forall m :: 0 <= m < k ==> before(t[m], x)
    requires k == |t| || !before(t[k], x)
    ensures Insert(x, t, before) == t[..k] + [x] + t[k..]
  {
    if k == 0 {
      assert t[..0] + [x] + t[0..] == [x] + t;
    } else {
      var u := t[1..];
      assert before(t[0], x);
      forall m | 0 <= m < k - 1 ensures before(u[m], x) {
        assert u[m] == t[m + 1];
      }
      assert k - 1 == |u| || u[k - 1] == t[k];
      InsertAt(x, u, k - 1, before);
      assert Insert(x, t, before) == [t[0]] + Insert(x, u, before);
      SplitAround(t, k, x);
    }
  }

  /** `x` placed at index `k - 1` of the tail, behind the head, is `x` placed at index `k`. */
  lemma SplitAround<T>(t: seq<T>, k: nat, x: T)
    requires 1 <= k <= |t|
    ensures [t[0]] + (t[1..][..k - 1] + [x] + t[1..][k - 1..]) == t[..k] + [x] + t[k..]
  {
    var u := t[1..];
    assert t[..k] == [t[0]] + u[..k - 1];
    assert t[k..] == u[k - 1..];
  }

  /** The sequence reasoning behind the last step of `InsertStep`. */
  lemma DropIntoGap<T>(shifted: seq<T>, orig: seq<T>, t: seq<T>, x: T, i: nat, j: nat)
    requires i <= j < |shifted| == |orig| && |t| == |orig| - i - 1
    requires forall k :: 0 <= k < i ==> shifted[k] == orig[k]
    requires forall k :: i <= k < j ==> shifted[k] == t[k - i]
    requires forall k :: j < k < |shifted| ==> shifted[k] == t[k - i - 1]
    ensures shifted[j := x][..i] == orig[..i]
    ensures shifted[j := x][i..] == t[..j - i] + [x] + t[j - i..]
  {
    var a := shifted[j := x];
    var r := t[..j - i] + [x] + t[j - i..];
    assert |a[i..]| == |r|;
    forall k | 0 <= k < |r| ensures a[i..][k] == r[k] {
      if k < j - i {
        assert r[k] == t[k];
      } else if k > j - i {
        assert r[k] == t[k - 1];
      }
    }
  }

  /** One step of the in-place sort: with `a[i + 1..]` already sorted, shift the
      elements that come strictly before `a[i]` one place left and drop `a[i]` in
      the gap. */
  method InsertStep<T>(a: array<T>, i: nat, before: (T, T) -> bool)
    requires i < a.Length
    modifies a
    ensures a[..i] == old(a[..i])
    ensures a[i..] == Insert(old(a[i]), old(a[i + 1..]), before)
  {
    var n := a.Length;
    var x := a[i];
    ghost var t := a[i + 1..];
    var j := i;
    while j + 1 < n && before(a[j + 1], x)
      invariant i <= j < n
      invariant forall k :: 0 <= k < i ==> a[k] == old(a[k])
      invariant forall k :: i <= k < j ==> a[k] == t[k - i]
      invariant forall k :: j < k < n ==> a[k] == t[k - i - 1]
      invariant forall m :: 0 <= m < j - i ==> before(t[m], x)
    {
      a[j] := a[j + 1];
      j := j + 1;
    }
    ghost var shifted := a[..];
    ghost var orig := old(a[..]);
    assert forall k :: 0 <= k < i ==> shifted[k] == orig[k];
    a[j] := x;
    ghost var r := shifted[j := x];
    assert a[..] == r;
    DropIntoGap(shifted, orig, t, x, i, j);
    InsertAt(x, t, j - i, before);
    assert a[i..] == r[i..];
    assert old(a[..i]) == orig[..i];
  }

  /** The comparator-driven in-place sort: afterwards the array holds the stable sort
      of its old contents. */
  method SortInPlace<T>(a: array<T>, before: (T, T) -> bool)
    modifies a
    ensures a[..] == StableSort(old(a[..]), before)
  {
    ghost var s := a[..];
    var i := a.Length;
    while i > 0
      invariant 0 <= i <= a.Length
      invariant a[..i] == s[..i]
      invariant a[i..] == StableSort(s[i..], before)
    {
      i := i - 1;
      assert a[i] == s[i] by {
        assert a[..i + 1][i] == s[..i + 1][i];
      }
      InsertStep(a, i, before);
      StableSortStep(s, i, before);
    }
    assert a[..] == a[0..];
    assert s[0..] == s;
  }

  lemma StableSortStep<T>(s: seq<T>, i: nat, before: (T, T) -> bool)
    requires i < |s|
    ensures StableSort(s[i..], before) == Insert(s[i], StableSort(s[i + 1..], before), before)
  {
    assert s[i..][0] == s[i];
    assert s[i..][1..] == s[i + 1..];
  }

  /** A new array holding `s`, sorted in place. */
  method SortedArray<T>(s: seq<T>, before: (T, T) -> bool) returns (a: array<T>)
    ensures fresh(a)
    ensures a[..] == StableSort(s, before)
  {
    a := new T[|s|](i requires 0 <= i < |s| => s[i]);
    assert a[..] == s;
    SortInPlace(a, before);
  }

  // ---------------------------------------------------------------------------
  // The stable sort is sorted

  lemma {:induction false} InsertSorted<T(!new)>(x: T, t: seq<T>, before: (T, T) -> bool)
    requires StrictWeakOrder(before)
    requires Sorted(t, before)
    ensures Sorted(Insert(x, t, before), before)
  {
    if t == [] || !before(t[0], x) {
      var r := [x] + t;
      forall i, j | 0 <= i < j < |r| ensures !before(r[j], r[i]) {
        if i == 0 {
          if j > 1 { assert !before(t[j - 1], t[0]); }
        }
      }
    } else {
      var rest := Insert(x, t[1..], before);
      InsertSorted(x, t[1..], before);
      InsertMembers(x, t[1..], before);
      var r := [t[0]] + rest;
      forall i, j | 0 <= i < j < |r| ensures !before(r[j], r[i]) {
        if i == 0 {
          var y := rest[j - 1];
          assert y in rest;
          if y != x {
            var k :| 0 <= k < |t[1..]| && t[1..][k] == y;
            assert t[k + 1] == y;
          }
        } else {
          assert r[i] == rest[i - 1] && r[j] == rest[j - 1];
        }
      }
    }
  }

  /** Inserting adds `x` and keeps every element. */
  lemma InsertMembers<T>(x: T, s: seq<T>, before: (T, T) -> bool)
    ensures forall y :: y in Insert(x, s, before) <==> y == x || y in s
  {
    var r := Insert(x, s, before);
    forall y ensures y in r <==> y == x || y in s {
      assert y in r <==> y in multiset(r);
      assert y in s <==> y in multiset(s);
    }
  }

  /** What a correct comparator sort promises: no element ends up behind one it
      comes strictly before. */
  lemma {:induction false} StableSortSorted<T(!new)>(s: seq<T>, before: (T, T) -> bool)
    requires StrictWeakOrder(before)
    ensures Sorted(StableSort(s, before), before)
  {
    if s != [] {
      StableSortSorted(s[1..], before);
      InsertSorted(s[0], StableSort(s[1..], before), before);
    }
  }

  // ---------------------------------------------------------------------------
  // Stability: every class of tied elements keeps its input order

  lemma {:induction false} InsertKeepsTies<T(!new)>(x: T, t: seq<T>, e: T, before: (T, T) -> bool)
    requires StrictWeakOrder(before)
    ensures TiesWith(Insert(x, t, before), e, before)
         == if Tied(x, e, before) then [x] + TiesWith(t, e, before) else TiesWith(t, e, before)
  {
    if t == [] || !before(t[0], x) {
      assert ([x] + t)[1..] == t;
    } else {
      var rest := Insert(x, t[1..], before);
      InsertKeepsTies(x, t[1..], e, before);
      assert ([t[0]] + rest)[1..] == rest;
      if Tied(x, e, before) {
        // t[0] is strictly ahead of x, and x ties with e, so t[0] is strictly ahead of e
        assert !Tied(t[0], e, before);
      }
    }
  }

  /** Stability: the elements tied with any `e` come out in the order they went in. */
  lemma {:induction false} StableSortKeepsTies<T(!new)>(s: seq<T>, e: T, before: (T, T) -> bool)
    requires StrictWeakOrder(before)
    ensures TiesWith(StableSort(s, before), e, before) == TiesWith(s, e, before)
  {
    if s != [] {
      StableSortKeepsTies(s[1..], e, before);
      InsertKeepsTies(s[0], StableSort(s[1..], before), e, before);
    }
  }

  lemma {:induction false} TiesWithKeepsSorted<T>(s: seq<T>, e: T, tie: (T, T) -> bool, order: (T, T) -> bool)
    requires Sorted(s, order)
    ensures Sorted(TiesWith(s, e, tie), order)
  {
    if s != [] {
      TiesWithKeepsSorted(s[1..], e, tie, order);
      var rest := TiesWith(s[1..], e, tie);
      if Tied(s[0], e, tie) {
        var r := [s[0]] + rest;
        forall j | 1 <= j < |r| ensures !order(r[j], s[0]) {
          assert r[j] in rest;
          assert r[j] in s[1..];
          var k :| 0 <= k < |s[1..]| && s[1..][k] == r[j];
          assert s[k + 1] == r[j];
        }
      }
    }
  }

  /** Sorting by a second key after sorting by a first keeps the first as the
      tie-break: within each class of `major` ties the `minor` order survives. */
  lemma TieBreakSurvives<T(!new)>(s: seq<T>, e: T, major: (T, T) -> bool, minor: (T, T) -> bool)
    requires StrictWeakOrder(major) && StrictWeakOrder(minor)
    ensures Sorted(TiesWith(StableSort(StableSort(s, minor), major), e, major), minor)
  {
    StableSortKeepsTies(StableSort(s, minor), e, major);
    StableSortSorted(s, minor);
    TiesWithKeepsSorted(StableSort(s, minor), e, major, minor);
  }

  /** Sorting keeps exactly the elements it was given. */
  lemma StableSortMembers<T(!new)>(s: seq<T>, before: (T, T) -> bool)
    ensures forall x :: x in StableSort(s, before) <==> x in s
  {
    forall x ensures x in StableSort(s, before) <==> x in s {
      assert x in StableSort(s, before) <==> x in multiset(StableSort(s, before));
      assert x in s <==> x in multiset(s);
    }
  }

  /** The elements of a projection are the images of the elements projected. */
  lemma MapSeqMembers<A, B>(s: seq<A>, f: A -> B)
    ensures forall x :: x in MapSeq(s, f) ==> exists a :: a in s && x == f(a)
    ensures forall a :: a in s ==> f(a) in MapSeq(s, f)
  {
    var r := MapSeq(s, f);
    forall x | x in r ensures exists a :: a in s && x == f(a) {
      var i :| 0 <= i < |r| && r[i] == x;
      assert s[i] in s;
    }
    forall a | a in s ensures f(a) in r {
      var i :| 0 <= i < |s| && s[i] == a;
      assert r[i] == f(a);
    }
  }

  // ---------------------------------------------------------------------------
  // Sorting commutes with a projection that keeps the comparator

  lemma {:induction false} InsertMap<A, B>(x: A, t: seq<A>, f: A -> B, rowBefore: (A, A) -> bool, before: (B, B) -> bool)
    requires forall c :: c in t ==> rowBefore(c, x) == before(f(c), f(x))
    ensures MapSeq(Insert(x, t, rowBefore), f) == Insert(f(x), MapSeq(t, f), before)
  {
    if t == [] || !rowBefore(t[0], x) {
      assert MapSeq([x] + t, f) == [f(x)] + MapSeq(t, f);
    } else {
      InsertMap(x, t[1..], f, rowBefore, before);
      assert MapSeq([t[0]] + Insert(x, t[1..], rowBefore), f)
          == [f(t[0])] + MapSeq(Insert(x, t[1..], rowBefore), f);
      assert MapSeq(t, f)[1..] == MapSeq(t[1..], f);
    }
  }

  /** Projecting and then sorting equals sorting the rows and then projecting,
      when, on the rows of `s`, the comparator only looks at what the projection
      keeps. */
  lemma {:induction false} StableSortMap<A, B>(s: seq<A>, f: A -> B, rowBefore: (A, A) -> bool, before: (B, B) -> bool)
    requires forall a, c :: a in s && c in s ==> rowBefore(a, c) == before(f(a), f(c))
    ensures MapSeq(StableSort(s, rowBefore), f) == StableSort(MapSeq(s, f), before)
  {
    if s != [] {
      StableSortMap(s[1..], f, rowBefore, before);
      forall c | c in StableSort(s[1..], rowBefore) ensures c in s {
        assert c in multiset(StableSort(s[1..], rowBefore));
        assert c in s[1..];
      }
      InsertMap(s[0], StableSort(s[1..], rowBefore), f, rowBefore, before);
      assert MapSeq(s, f)[1..] == MapSeq(s[1..], f);
    }
  }

  /** Sorting, projecting and sorting again keeps exactly the images of the rows. */
  lemma SortProjectSortMembers<A(!new), B(!new)>(s: seq<A>, f: A -> B, rowBefore: (A, A) -> bool, before: (B, B) -> bool)
    ensures var r := StableSort(MapSeq(StableSort(s, rowBefore), f), before);
      && (forall x :: x in r ==> exists a :: a in s && x == f(a))
      && (forall a :: a in s ==> f(a) in r)
  {
    var sorted := StableSort(s, rowBefore);
    var m := MapSeq(sorted, f);
    var r := StableSort(m, before);
    StableSortMembers(s, rowBefore);
    StableSortMembers(m, before);
    forall x | x in r ensures exists a :: a in s && x == f(a) {
      assert x in m;
      var i :| 0 <= i < |m| && m[i] == x;
      assert sorted[i] in sorted;
    }
    forall a | a in s ensures f(a) in r {
      var i :| 0 <= i < |sorted| && sorted[i] == a;
      assert m[i] == f(a);
    }
  }

  /** Sorting rows by `minor`, projecting them, then sorting by a `major` order
      that only looks at the projection, is projecting the rows sorted by
      `major`, whose `major` ties keep the `minor` order. */
  lemma ProjectedTieBreak<A(!new), B>(s: seq<A>, f: A -> B, minor: (A, A) -> bool, majorRow: (A, A) -> bool, major: (B, B) -> bool)
    requires StrictWeakOrder(minor) && StrictWeakOrder(majorRow)
    requires forall a, c :: majorRow(a, c) == major(f(a), f(c))
    ensures var ss := StableSort(StableSort(s, minor), majorRow);
      && StableSort(MapSeq(StableSort(s, minor), f), major) == MapSeq(ss, f)
      && Sorted(ss, majorRow)
      && forall e :: Sorted(TiesWith(ss, e, majorRow), minor)
  {
    var sorted := StableSort(s, minor);
    var ss := StableSort(sorted, majorRow);
    StableSortMap(sorted, f, majorRow, major);
    StableSortSorted(sorted, majorRow);
    forall e ensures Sorted(TiesWith(ss, e, majorRow), minor) {
      TieBreakSurvives(s, e, majorRow, minor);
    }
  }

  /** Sorting an already sorted sequence changes nothing. */
  lemma {:induction false} StableSortOfSorted<T(!new)>(s: seq<T>, before: (T, T) -> bool)
    requires StrictWeakOrder(before)
    requires Sorted(s, before)
    ensures StableSort(s, before) == s
  {
    if s != [] {
      assert Sorted(s[1..], before);
      StableSortOfSorted(s[1..], before);
      assert StableSort(s[1..], before) == s[1..];
      if |s| > 1 { assert !before(s[1], s[0]); }
    }
  }
}
