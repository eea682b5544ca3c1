/**
  The row order of an SQL "ORDER BY key" over a table: a stable
  insertion sort on an integer key. Rows with equal keys keep their
  table order, which is one of the orders the database may return.
 */
module Ordering {

  predicate SortedBy<T>(s: seq<T>, key: T -> int) {
    forall i, j | 0 <= i < j < |s| :: key(s[i]) <= key(s[j])
  }

  /** Puts x in front of the first element whose key is not smaller. */
  function Insert<T>(x: T, s: seq<T>, key: T -> int): (r: seq<T>)
    ensures multiset(r) == multiset(s) + multiset{x}
    ensures |r| == |s| + 1
  {
    if s == [] || key(x) <= key(s[0]) then [x] + s
    else
      assert s == [s[0]] + s[1..];
      [s[0]] + Insert(x, s[1..], key)
  }

  function SortBy<T>(s: seq<T>, key: T -> int): (r: seq<T>)
    ensures multiset(r) == multiset(s)
    ensures |r| == |s|
  {
    if s == [] then []
    else
      assert s == [s[0]] + s[1..];
      Insert(s[0], SortBy(s[1..], key), key)
  }

  /** Inserting an element that is no smaller than a bound into a sequence
      whose elements are no smaller than it keeps every element above it. */
  lemma {:induction false} InsertAboveBound<T>(x: T, s: seq<T>, key: T -> int, bound: int)
    requires bound <= key(x)
    requires forall i | 0 <= i < |s| :: bound <= key(s[i])
    ensures forall i | 0 <= i < |Insert(x, s, key)| :: bound <= key(Insert(x, s, key)[i])
  {
    if s != [] && key(s[0]) < key(x) {
      InsertAboveBound(x, s[1..], key, bound);
      var r := Insert(x, s, key);
      forall i | 0 <= i < |r| ensures bound <= key(r[i]) {
        if i > 0 {
          assert r[i] == Insert(x, s[1..], key)[i - 1];
        }
      }
    }
  }

  lemma {:induction false} InsertKeepsSorted<T>(x: T, s: seq<T>, key: T -> int)
    requires SortedBy(s, key)
    ensures SortedBy(Insert(x, s, key), key)
  {
    if s != [] && key(s[0]) < key(x) {
      var t := s[1..];
      InsertKeepsSorted(x, t, key);
      InsertAboveBound(x, t, key, key(s[0]));
      var r := Insert(x, t, key);
      assert Insert(x, s, key) == [s[0]] + r;
      ConsSorted(s[0], r, key);
    }
  }

  /** An element no larger than any of a sorted sequence can go in front. */
  lemma ConsSorted<T>(y: T, r: seq<T>, key: T -> int)
    requires SortedBy(r, key)
    requires forall i | 0 <= i < |r| :: key(y) <= key(r[i])
    ensures SortedBy([y] + r, key)
  {
    var c := [y] + r;
    forall i, j | 0 <= i < j < |c| ensures key(c[i]) <= key(c[j]) {
      assert c[j] == r[j - 1];
      if i > 0 {
        assert c[i] == r[i - 1];
      }
    }
  }

  /** ORDER BY returns every row of the input exactly once, in key order. */
  lemma {:induction false} SortBySorted<T>(s: seq<T>, key: T -> int)
    ensures SortedBy(SortBy(s, key), key)
  {
    if s != [] {
      SortBySorted(s[1..], key);
      InsertKeepsSorted(s[0], SortBy(s[1..], key), key);
    }
  }
}
