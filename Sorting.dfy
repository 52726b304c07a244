/**
 * Python's built-in `sorted(xs, key=...)`: a stable sort, ascending on an
 * integer key.  `reverse=True` keeps stability, so a descending sort is an
 * ascending sort on the negated key.
 */
module Sorting {

  ghost predicate SortedBy<T>(s: seq<T>, key: T -> int) {
    forall i, j :: 0 <= i < j < |s| ==> key(s[i]) <= key(s[j])
  }

  /** Puts x in front of the first element whose key is not smaller than x's. */
  function Insert<T>(x: T, s: seq<T>, key: T -> int): (r: seq<T>)
    ensures |r| == |s| + 1
    ensures multiset(r) == multiset(s) + multiset{x}
  {
    if s == [] then [x]
    else if key(x) <= key(s[0]) then [x] + s
    else
      assert s == [s[0]] + s[1..];
      [s[0]] + Insert(x, s[1..], key)
  }

  /** Inserting into a sorted sequence keeps it sorted. */
  lemma {:induction false} InsertSorted<T>(x: T, s: seq<T>, key: T -> int)
    requires SortedBy(s, key)
    ensures SortedBy(Insert(x, s, key), key)
  {
    if s != [] && key(x) > key(s[0]) {
      var t := Insert(x, s[1..], key);
      InsertSorted(x, s[1..], key);
      forall i | 0 <= i < |t| ensures key(s[0]) <= key(t[i]) {
        assert t[i] in multiset(t);
        if t[i] != x {
          assert t[i] in multiset(s[1..]);
          var j :| 0 <= j < |s[1..]| && s[1..][j] == t[i];
          assert s[j + 1] == t[i];
        }
      }
      assert Insert(x, s, key) == [s[0]] + t;
    }
  }

  /** Insertion sort from the back: each element is put before the equal keys behind it. */
  function SortBy<T>(s: seq<T>, key: T -> int): (r: seq<T>)
    ensures |r| == |s|
    ensures multiset(r) == multiset(s)
    ensures SortedBy(r, key)
  {
    if s == [] then []
    else
      assert s == [s[0]] + s[1..];
      InsertSorted(s[0], SortBy(s[1..], key), key);
      Insert(s[0], SortBy(s[1..], key), key)
  }

  /** Python's `list.index`: the first position of x. */
  function FirstIndex<T(==)>(s: seq<T>, x: T): (k: nat)
    requires x in s
    ensures k < |s| && s[k] == x
    ensures forall j :: 0 <= j < k ==> s[j] != x
  {
    if s[0] == x then 0 else 1 + FirstIndex(s[1..], x)
  }

  /** How many elements have a key strictly below b. */
  function CountBelow<T>(s: seq<T>, key: T -> int, b: int): (n: nat)
    ensures n <= |s|
  {
    if s == [] then 0 else (if key(s[0]) < b then 1 else 0) + CountBelow(s[1..], key, b)
  }

  /** How many elements before the first occurrence of x have the same key as x. */
  function TiedBefore<T(==)>(s: seq<T>, key: T -> int, x: T): nat
    requires x in s
  {
    if s[0] == x then 0 else (if key(s[0]) == key(x) then 1 else 0) + TiedBefore(s[1..], key, x)
  }

  lemma {:induction false} CountBelowZero<T>(s: seq<T>, key: T -> int, b: int)
    ensures CountBelow(s, key, b) == 0 <==> forall i :: 0 <= i < |s| ==> b <= key(s[i])
  {
    if s != [] {
      CountBelowZero(s[1..], key, b);
      assert forall i :: 0 < i < |s| ==> s[i] == s[1..][i - 1];
    }
  }

  lemma {:induction false} TiedBeforeZero<T>(s: seq<T>, key: T -> int, x: T)
    requires x in s
    ensures TiedBefore(s, key, x) == 0 <==> forall j :: 0 <= j < FirstIndex(s, x) ==> key(s[j]) != key(x)
  {
    if s[0] != x {
      TiedBeforeZero(s[1..], key, x);
      assert forall j :: 0 < j < |s| ==> s[j] == s[1..][j - 1];
    }
  }

  lemma {:induction false} CountBelowInsert<T>(x: T, u: seq<T>, key: T -> int, b: int)
    ensures CountBelow(Insert(x, u, key), key, b) == CountBelow(u, key, b) + (if key(x) < b then 1 else 0)
  {
    if u != [] && key(x) > key(u[0]) {
      CountBelowInsert(x, u[1..], key, b);
      assert ([u[0]] + Insert(x, u[1..], key))[1..] == Insert(x, u[1..], key);
    }
  }

  lemma {:induction false} CountBelowSort<T>(s: seq<T>, key: T -> int, b: int)
    ensures CountBelow(SortBy(s, key), key, b) == CountBelow(s, key, b)
  {
    if s != [] {
      CountBelowSort(s[1..], key, b);
      CountBelowInsert(s[0], SortBy(s[1..], key), key, b);
    }
  }

  /** Inserting x moves a different element y one place back iff x goes in front of it. */
  lemma {:induction false} InsertMovesOther<T>(x: T, u: seq<T>, key: T -> int, y: T)
    requires SortedBy(u, key) && y in u && x != y
    ensures y in Insert(x, u, key)
    ensures FirstIndex(Insert(x, u, key), y) == FirstIndex(u, y) + (if key(x) <= key(y) then 1 else 0)
  {
    var r := Insert(x, u, key);
    assert y in multiset(r);
    if key(x) <= key(u[0]) {
      assert r == [x] + u && r[1..] == u;
      var k := FirstIndex(u, y);
      assert key(u[0]) <= key(u[k]);
    } else if u[0] == y {
      assert r[0] == y;
    } else {
      InsertMovesOther(x, u[1..], key, y);
      assert r[1..] == Insert(x, u[1..], key);
    }
  }

  /** An inserted element lands after exactly the elements with a smaller key. */
  lemma {:induction false} InsertPlacesSelf<T>(x: T, u: seq<T>, key: T -> int)
    requires SortedBy(u, key)
    ensures x in Insert(x, u, key)
    ensures FirstIndex(Insert(x, u, key), x) == CountBelow(u, key, key(x))
  {
    var r := Insert(x, u, key);
    assert x in multiset(r);
    if u == [] {
    } else if key(x) <= key(u[0]) {
      CountBelowZero(u, key, key(x));
    } else {
      InsertPlacesSelf(x, u[1..], key);
      assert r[1..] == Insert(x, u[1..], key);
    }
  }

  /**
   * Stability, stated as a position: in the sorted list the first copy of x
   * comes after every element with a smaller key and after every element
   * with an equal key that precedes x in the input, and nothing else.
   */
  lemma {:induction false} SortedPosition<T>(s: seq<T>, key: T -> int, x: T)
    requires x in s
    ensures x in SortBy(s, key)
    ensures FirstIndex(SortBy(s, key), x) == CountBelow(s, key, key(x)) + TiedBefore(s, key, x)
  {
    var t := SortBy(s[1..], key);
    assert x in multiset(SortBy(s, key));
    if s[0] == x {
      InsertPlacesSelf(x, t, key);
      CountBelowSort(s[1..], key, key(x));
    } else {
      assert x in s[1..];
      SortedPosition(s[1..], key, x);
      InsertMovesOther(s[0], t, key, x);
    }
  }

  /** The head of the sorted list: a minimal key, and the earliest element among ties. */
  lemma SortedHead<T>(s: seq<T>, key: T -> int)
    requires |s| > 0
    ensures SortBy(s, key)[0] in s
    ensures forall i :: 0 <= i < |s| ==> key(SortBy(s, key)[0]) <= key(s[i])
    ensures forall j :: 0 <= j < FirstIndex(s, SortBy(s, key)[0]) ==> key(SortBy(s, key)[0]) < key(s[j])
  {
    var r := SortBy(s, key);
    assert r[0] in multiset(s);
    SortedPosition(s, key, r[0]);
    CountBelowZero(s, key, key(r[0]));
    TiedBeforeZero(s, key, r[0]);
  }

  /** `list(filter(keep, s))`: the kept elements, in their original order. */
  function Filter<T>(s: seq<T>, keep: T -> bool): (r: seq<T>)
    ensures |r| <= |s|
  {
    if s == [] then [] else (if keep(s[0]) then [s[0]] else []) + Filter(s[1..], keep)
  }

  /** The filtered list holds exactly the kept elements. */
  lemma {:induction false} FilterMembers<T>(s: seq<T>, keep: T -> bool, x: T)
    ensures x in Filter(s, keep) <==> x in s && keep(x)
  {
    if s != [] {
      FilterMembers(s[1..], keep, x);
      assert s == [s[0]] + s[1..];
    }
  }

  /** Filtering keeps a sorted list sorted. */
  lemma {:induction false} FilterSorted<T>(s: seq<T>, keep: T -> bool, key: T -> int)
    requires SortedBy(s, key)
    ensures SortedBy(Filter(s, keep), key)
  {
    if s != [] {
      FilterSorted(s[1..], keep, key);
      var rest := Filter(s[1..], keep);
      forall y | y in rest ensures key(s[0]) <= key(y) {
        FilterMembers(s[1..], keep, y);
      }
    }
  }

  /** The head of a sorted list has the smallest key of all. */
  lemma SortedHeadIsLeast<T>(s: seq<T>, key: T -> int, y: T)
    requires SortedBy(s, key) && |s| > 0 && y in s
    ensures key(s[0]) <= key(y)
  {
  }

  /** The first kept element is the first element of `s` that is kept; nothing kept means no element qualifies. */
  lemma {:induction false} FilterHead<T>(s: seq<T>, keep: T -> bool)
    ensures |Filter(s, keep)| > 0 ==> exists k :: 0 <= k < |s| && s[k] == Filter(s, keep)[0] && keep(s[k]) && forall j :: 0 <= j < k ==> !keep(s[j])
    ensures |Filter(s, keep)| == 0 ==> forall j :: 0 <= j < |s| ==> !keep(s[j])
  {
    if s != [] {
      FilterHead(s[1..], keep);
      if !keep(s[0]) && |Filter(s, keep)| > 0 {
        var k :| 0 <= k < |s[1..]| && s[1..][k] == Filter(s[1..], keep)[0] && keep(s[1..][k]) && forall j :: 0 <= j < k ==> !keep(s[1..][j]);
        assert s[k + 1] == s[1..][k];
        assert forall j :: 1 <= j < k + 1 ==> s[j] == s[1..][j - 1];
      }
      if |Filter(s, keep)| == 0 {
        assert forall j :: 1 <= j < |s| ==> s[j] == s[1..][j - 1];
      }
    }
  }

  /** `filter` keeps the relative order of the elements it keeps. */
  lemma {:induction false} FilterKeepsOrder<T>(s: seq<T>, keep: T -> bool, x: T, y: T)
    requires x in s && y in s && keep(x) && keep(y) && FirstIndex(s, x) < FirstIndex(s, y)
    ensures x in Filter(s, keep) && y in Filter(s, keep)
    ensures FirstIndex(Filter(s, keep), x) < FirstIndex(Filter(s, keep), y)
  {
    FilterMembers(s, keep, x);
    FilterMembers(s, keep, y);
    var r := Filter(s, keep);
    if s[0] == x {
      assert r[0] == x;
    } else {
      assert FirstIndex(s, x) == 1 + FirstIndex(s[1..], x);
      assert s[0] != y && FirstIndex(s, y) == 1 + FirstIndex(s[1..], y);
      FilterKeepsOrder(s[1..], keep, x, y);
      if keep(s[0]) {
        assert r == [s[0]] + Filter(s[1..], keep);
        assert r[1..] == Filter(s[1..], keep);
        assert FirstIndex(r, x) == 1 + FirstIndex(r[1..], x);
        assert FirstIndex(r, y) == 1 + FirstIndex(r[1..], y);
      } else {
        assert r == Filter(s[1..], keep);
      }
    }
  }

  /** Elements with equal keys come out of the sort in the order they went in. */
  lemma {:induction false} TiedBeforeOrder<T>(s: seq<T>, key: T -> int, x: T, y: T)
    requires x in s && y in s && key(x) == key(y) && FirstIndex(s, x) < FirstIndex(s, y)
    ensures TiedBefore(s, key, x) < TiedBefore(s, key, y)
  {
    if s[0] != x {
      TiedBeforeOrder(s[1..], key, x, y);
    }
  }

  /** `sorted` is stable: two elements with equal keys keep their relative order. */
  lemma StableOrder<T>(s: seq<T>, key: T -> int, x: T, y: T)
    requires x in s && y in s && key(x) == key(y) && FirstIndex(s, x) < FirstIndex(s, y)
    ensures x in SortBy(s, key) && y in SortBy(s, key)
    ensures FirstIndex(SortBy(s, key), x) < FirstIndex(SortBy(s, key), y)
  {
    SortedPosition(s, key, x);
    SortedPosition(s, key, y);
    TiedBeforeOrder(s, key, x, y);
  }
}
