/**
 * Array.prototype.sort with a decimal-position comparator, as the lookups,
 * createTimeKeys and calculatePositionTime use it. The sort is stable, as
 * the language guarantees: elements are inserted one by one, each after
 * every element that does not come strictly after it.
 */
module Sorting {
  import opened NotedTypes
  import opened Positions

  /** Non-decreasing by key. */
  predicate SortedBy<T>(s: seq<T>, key: T -> Decimal) {
    forall i, j :: 0 <= i < j < |s| ==> !DecimalBefore(key(s[j]), key(s[i]))
  }

  /** Insert x before the first element that comes strictly after it. */
  function Insert<T>(x: T, s: seq<T>, key: T -> Decimal): (r: seq<T>)
    ensures |r| == |s| + 1
    ensures multiset(r) == multiset(s) + multiset{x}
  {
    if |s| == 0 then [x]
    else if DecimalBefore(key(x), key(s[0])) then [x] + s
    else
      assert s == [s[0]] + s[1..];
      [s[0]] + Insert(x, s[1..], key)
  }

  /** Every element of Insert(x, s) is x or an element of s. */
  lemma InsertMembers<T>(x: T, s: seq<T>, key: T -> Decimal, i: int)
    requires 0 <= i < |s| + 1
    ensures Insert(x, s, key)[i] == x || Insert(x, s, key)[i] in s
  {
    assert Insert(x, s, key)[i] in multiset(Insert(x, s, key));
  }

  /** Insertion keeps a sorted list sorted. */
  lemma {:induction false} InsertSorted<T>(x: T, s: seq<T>, key: T -> Decimal)
    requires SortedBy(s, key)
    ensures SortedBy(Insert(x, s, key), key)
    decreases |s|
  {
    if |s| > 0 && !DecimalBefore(key(x), key(s[0])) {
      var rest := Insert(x, s[1..], key);
      InsertSorted(x, s[1..], key);
      forall i | 0 <= i < |rest|
        ensures !DecimalBefore(key(rest[i]), key(s[0]))
      {
        InsertMembers(x, s[1..], key, i);
        if rest[i] != x {
          var k :| 0 <= k < |s[1..]| && s[1..][k] == rest[i];
          assert s[k + 1] == rest[i];
        }
      }
      assert Insert(x, s, key) == [s[0]] + rest;
    }
  }

  /** Insertion sort, taking the elements in order. */
  function Sort<T>(s: seq<T>, key: T -> Decimal): (r: seq<T>)
    ensures |r| == |s|
    ensures multiset(r) == multiset(s)
    ensures SortedBy(r, key)
  {
    if |s| == 0 then []
    else
      assert s == s[..|s| - 1] + [s[|s| - 1]];
      InsertSorted(s[|s| - 1], Sort(s[..|s| - 1], key), key);
      Insert(s[|s| - 1], Sort(s[..|s| - 1], key), key)
  }

  function Last<T>(s: seq<T>): T
    requires |s| > 0
  {
    s[|s| - 1]
  }

  /**
   * s[j] is what `.pop()` takes after the sort: no element comes after it,
   * and every later element of s comes strictly before it.
   */
  predicate IsLatest<T>(s: seq<T>, key: T -> Decimal, j: int) {
    && 0 <= j < |s|
    && (forall k :: 0 <= k < |s| ==> !DecimalBefore(key(s[j]), key(s[k])))
    && (forall k :: j < k < |s| ==> DecimalBefore(key(s[k]), key(s[j])))
  }

  /** Inserting into a sorted list leaves x last unless the old last comes after it. */
  lemma {:induction false} LastOfInsert<T>(x: T, s: seq<T>, key: T -> Decimal)
    requires |s| > 0 && SortedBy(s, key)
    ensures Last(Insert(x, s, key)) == if DecimalBefore(key(x), key(Last(s))) then Last(s) else x
    decreases |s|
  {
    if DecimalBefore(key(x), key(s[0])) {
    } else if |s| > 1 {
      LastOfInsert(x, s[1..], key);
      assert Last(s[1..]) == Last(s);
    }
  }

  /** The last element of the sorted list is the latest element, the last of equals. */
  lemma {:induction false} LastOfSort<T>(s: seq<T>, key: T -> Decimal)
    requires |s| > 0
    ensures exists j :: IsLatest(s, key, j) && Last(Sort(s, key)) == s[j]
    decreases |s|
  {
    var n := |s| - 1;
    var p := s[..n];
    var x := s[n];
    if n == 0 {
      assert IsLatest(s, key, 0);
    } else {
      LastOfSort(p, key);
      var j' :| IsLatest(p, key, j') && Last(Sort(p, key)) == p[j'];
      LastOfInsert(x, Sort(p, key), key);
      assert Sort(s, key) == Insert(x, Sort(p, key), key);
      if DecimalBefore(key(x), key(p[j'])) {
        LatestKept(s, key, j');
      } else {
        LatestReplaced(s, key, j');
      }
    }
  }

  lemma LatestKept<T>(s: seq<T>, key: T -> Decimal, j: int)
    requires |s| > 1 && IsLatest(s[..|s| - 1], key, j)
    requires DecimalBefore(key(s[|s| - 1]), key(s[j]))
    ensures IsLatest(s, key, j)
  {
    var p := s[..|s| - 1];
    assert forall k :: 0 <= k < |p| ==> s[k] == p[k];
  }

  lemma LatestReplaced<T>(s: seq<T>, key: T -> Decimal, j: int)
    requires |s| > 1 && IsLatest(s[..|s| - 1], key, j)
    requires !DecimalBefore(key(s[|s| - 1]), key(s[j]))
    ensures IsLatest(s, key, |s| - 1)
  {
    var p := s[..|s| - 1];
    assert forall k :: 0 <= k < |p| ==> s[k] == p[k];
  }

  /** Keep the elements satisfying f, in order. */
  function Filter<T(!new)>(s: seq<T>, f: T -> bool): (r: seq<T>)
    ensures |r| <= |s|
    ensures forall x :: x in r <==> x in s && f(x)
  {
    if |s| == 0 then []
    else if f(s[0]) then [s[0]] + Filter(s[1..], f)
    else Filter(s[1..], f)
  }
}
