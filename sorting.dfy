/**
 * Python's `sorted(xs, key=..., reverse=...)`: a stable sort. It is given here
 * by the relation `before(x, y)`, "x may be placed ahead of y", which for a
 * descending sort on a key is `key(x) >= key(y)`.
 */
module Sorting {

  ghost predicate TotalPreorder<T(!new)>(before: (T, T) -> bool)
  {
    && (forall x, y :: before(x, y) || before(y, x))
    && (forall x, y, z :: before(x, y) && before(y, z) ==> before(x, z))
  }

  predicate Sorted<T>(s: seq<T>, before: (T, T) -> bool)
  {
    forall i, j :: 0 <= i < j < |s| ==> before(s[i], s[j])
  }

  /** x and y sort as equals. */
  predicate Tied<T>(before: (T, T) -> bool, x: T, y: T)
  {
    before(x, y) && before(y, x)
  }

  /** Puts x ahead of the first element it may precede. */
  function Insert<T>(x: T, s: seq<T>, before: (T, T) -> bool): (r: seq<T>)
    ensures multiset(r) == multiset(s) + multiset{x}
  {
    if s == [] || before(x, s[0]) then [x] + s
    else
      assert s == [s[0]] + s[1..];
      [s[0]] + Insert(x, s[1..], before)
  }

  /** Insertion sort: the head is inserted after its sorted tail, so it lands before its ties. */
  function SortBy<T>(s: seq<T>, before: (T, T) -> bool): (r: seq<T>)
    ensures multiset(r) == multiset(s)
  {
    if s == [] then []
    else
      assert s == [s[0]] + s[1..];
      Insert(s[0], SortBy(s[1..], before), before)
  }

  lemma {:induction false} InsertSorted<T(!new)>(x: T, s: seq<T>, before: (T, T) -> bool)
    requires TotalPreorder(before) && Sorted(s, before)
    ensures Sorted(Insert(x, s, before), before)
  {
    if s != [] && !before(x, s[0]) {
      InsertSorted(x, s[1..], before);
      var r := Insert(x, s, before);
      assert before(s[0], x);
      forall j | 1 <= j < |r| ensures before(s[0], r[j]) {
        assert r[j] in multiset(s[1..]) + multiset{x} by {
          assert r[j] in Insert(x, s[1..], before);
        }
        if r[j] != x {
          var k :| 0 <= k < |s[1..]| && s[1..][k] == r[j];
          assert s[k + 1] == r[j];
        }
      }
    }
  }

  /** The result is ordered by `before`. */
  lemma {:induction false} SortBySorted<T(!new)>(s: seq<T>, before: (T, T) -> bool)
    requires TotalPreorder(before)
    ensures Sorted(SortBy(s, before), before)
  {
    if s != [] {
      SortBySorted(s[1..], before);
      InsertSorted(s[0], SortBy(s[1..], before), before);
    }
  }

  /** The elements of s tied with x, in the order s has them. */
  function TiesOf<T>(s: seq<T>, x: T, before: (T, T) -> bool): seq<T>
  {
    if s == [] then []
    else (if Tied(before, s[0], x) then [s[0]] else []) + TiesOf(s[1..], x, before)
  }

  lemma {:induction false} TiesOfInsert<T(!new)>(y: T, s: seq<T>, x: T, before: (T, T) -> bool)
    requires TotalPreorder(before)
    ensures TiesOf(Insert(y, s, before), x, before)
         == (if Tied(before, y, x) then [y] else []) + TiesOf(s, x, before)
  {
    if s == [] || before(y, s[0]) {
      assert ([y] + s)[1..] == s;
    } else {
      var r := Insert(y, s, before);
      assert r[0] == s[0] && r[1..] == Insert(y, s[1..], before);
      TiesOfInsert(y, s[1..], x, before);
      var hy: seq<T> := if Tied(before, y, x) then [y] else [];
      var h0: seq<T> := if Tied(before, s[0], x) then [s[0]] else [];
      assert TiesOf(r, x, before) == h0 + (hy + TiesOf(s[1..], x, before));
      assert TiesOf(s, x, before) == h0 + TiesOf(s[1..], x, before);
      assert h0 == [] || hy == [];
      SwapEmpty(h0, hy, TiesOf(s[1..], x, before));
    }
  }

  lemma SwapEmpty<T>(a: seq<T>, b: seq<T>, c: seq<T>)
    requires a == [] || b == []
    ensures a + (b + c) == b + (a + c)
  {
  }

  /** Stability: elements that sort as equals keep their relative order. */
  lemma {:induction false} SortByStable<T(!new)>(s: seq<T>, x: T, before: (T, T) -> bool)
    requires TotalPreorder(before)
    ensures TiesOf(SortBy(s, before), x, before) == TiesOf(s, x, before)
  {
    if s != [] {
      SortByStable(s[1..], x, before);
      TiesOfInsert(s[0], SortBy(s[1..], before), x, before);
    }
  }

  /** Elements that sort as equals appear in increasing `place`. */
  predicate TiesByPlace<T>(s: seq<T>, before: (T, T) -> bool, place: T -> int)
  {
    forall i, j :: 0 <= i < j < |s| && Tied(before, s[i], s[j]) ==> place(s[i]) < place(s[j])
  }

  lemma ConsTiesByPlace<T>(y: T, t: seq<T>, before: (T, T) -> bool, place: T -> int)
    requires TiesByPlace(t, before, place)
    requires forall i :: 0 <= i < |t| && Tied(before, y, t[i]) ==> place(y) < place(t[i])
    ensures TiesByPlace([y] + t, before, place)
  {
    var r := [y] + t;
    forall i, j | 0 <= i < j < |r| && Tied(before, r[i], r[j])
      ensures place(r[i]) < place(r[j])
    {
      assert r[j] == t[j - 1];
      if i > 0 {
        assert r[i] == t[i - 1];
      }
    }
  }

  lemma {:induction false} InsertTiesByPlace<T(!new)>(x: T, s: seq<T>, before: (T, T) -> bool, place: T -> int)
    requires TotalPreorder(before) && TiesByPlace(s, before, place)
    requires forall i :: 0 <= i < |s| ==> place(x) < place(s[i])
    ensures TiesByPlace(Insert(x, s, before), before, place)
  {
    if s == [] || before(x, s[0]) {
      ConsTiesByPlace(x, s, before, place);
    } else {
      var t := Insert(x, s[1..], before);
      assert TiesByPlace(s[1..], before, place) by {
        forall i, j | 0 <= i < j < |s[1..]| && Tied(before, s[1..][i], s[1..][j])
          ensures place(s[1..][i]) < place(s[1..][j])
        {
          assert s[1..][i] == s[i + 1] && s[1..][j] == s[j + 1];
        }
      }
      InsertTiesByPlace(x, s[1..], before, place);
      forall i | 0 <= i < |t| && Tied(before, s[0], t[i]) ensures place(s[0]) < place(t[i]) {
        assert t[i] in multiset(s[1..]) + multiset{x} by {
          assert t[i] in multiset(t);
        }
        if t[i] != x {
          var k :| 0 <= k < |s[1..]| && s[1..][k] == t[i];
          assert s[k + 1] == t[i];
        }
      }
      ConsTiesByPlace(s[0], t, before, place);
    }
  }

  /**
   * Stability told by places: when `place` rises along the input, elements
   * that sort as equals still appear in rising `place` after sorting.
   */
  lemma {:induction false} SortByTiesByPlace<T(!new)>(s: seq<T>, before: (T, T) -> bool, place: T -> int)
    requires TotalPreorder(before)
    requires forall i, j :: 0 <= i < j < |s| ==> place(s[i]) < place(s[j])
    ensures TiesByPlace(SortBy(s, before), before, place)
  {
    if s != [] {
      var t := SortBy(s[1..], before);
      SortByTiesByPlace(s[1..], before, place);
      forall i | 0 <= i < |t| ensures place(s[0]) < place(t[i]) {
        assert t[i] in multiset(s[1..]) by {
          assert t[i] in multiset(t);
        }
        var k :| 0 <= k < |s[1..]| && s[1..][k] == t[i];
        assert s[k + 1] == t[i];
      }
      InsertTiesByPlace(s[0], t, before, place);
    }
  }

  predicate Distinct<T(==)>(s: seq<T>)
  {
    forall i, j :: 0 <= i < j < |s| ==> s[i] != s[j]
  }

  lemma {:induction false} InsertDistinct<T>(x: T, s: seq<T>, before: (T, T) -> bool)
    requires Distinct(s) && x !in s
    ensures Distinct(Insert(x, s, before))
  {
    if s != [] && !before(x, s[0]) {
      InsertDistinct(x, s[1..], before);
      var t := Insert(x, s[1..], before);
      assert s[0] !in multiset(s[1..]) + multiset{x};
      assert s[0] !in t;
    }
  }

  /** Sorting repeats nothing that the input does not repeat. */
  lemma {:induction false} SortByDistinct<T>(s: seq<T>, before: (T, T) -> bool)
    requires Distinct(s)
    ensures Distinct(SortBy(s, before))
  {
    if s != [] {
      SortByDistinct(s[1..], before);
      assert s[0] !in multiset(s[1..]);
      InsertDistinct(s[0], SortBy(s[1..], before), before);
    }
  }
}
