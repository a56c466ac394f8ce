/**
 * What calculatePositionTime promises: the time of a key at the position
 * itself, the errors for a bar without enough keys and for a position before
 * the first key of its bar, and otherwise linear interpolation between the
 * two keys of its bar that enclose it.
 */
module PositionTimeFacts {
  import opened Wrappers
  import opened NotedTypes
  import opened Positions
  import opened Sorting
  import opened PositionTime

  /** Some key lies exactly at the position. */
  predicate HasExactKey(d: Decimal, keys: seq<TimeKey>) {
    exists k :: 0 <= k < |keys| && keys[k].pos == d
  }

  /** k is a key of bar `bar`. */
  predicate KeyOfBar(k: TimeKey, keys: seq<TimeKey>, bar: int) {
    k in keys && k.pos.bar == bar
  }

  /** The first key exactly at the position gives its time. */
  lemma ExactKeyGivesItsTime(d: Decimal, p: Position, keys: seq<TimeKey>, k: int)
    requires 0 <= k < |keys| && keys[k].pos == d
    requires forall j :: 0 <= j < k ==> keys[j].pos != d
    ensures TimeAt(d, p, keys) == Success(keys[k].time)
  {
    var k' :| 0 <= k' < |keys| && keys[k'].pos == d && keys[k'].time == ExactKey(d, keys).value &&
              forall j :: 0 <= j < k' ==> keys[j].pos != d;
    assert !(k' < k) && !(k < k');
  }

  /** Within the keys of one bar, sorted by position, the fractions do not decrease. */
  lemma BarKeysAscend(bk: seq<TimeKey>, bar: int, a: int, b: int)
    requires SortedBy(bk, KeyPos) && forall k :: k in bk ==> k.pos.bar == bar
    requires 0 <= a <= b < |bk|
    ensures bk[a].pos.frac <= bk[b].pos.frac
  {
    if a < b {
      assert !DecimalBefore(KeyPos(bk[b]), KeyPos(bk[a]));
      assert bk[a] in bk && bk[b] in bk;
    }
  }

  /** A bar without keys is out of bounds. */
  lemma EmptyBarIsOutOfBounds(d: Decimal, p: Position, keys: seq<TimeKey>)
    requires forall k :: 0 <= k < |keys| ==> keys[k].pos.bar != d.bar
    ensures TimeAt(d, p, keys) == Failure(PositionOutOfBounds)
  {
  }

  lemma {:induction false} FilterOfNone<T(!new)>(s: seq<T>, f: T -> bool)
    requires forall j :: 0 <= j < |s| ==> !f(s[j])
    ensures Filter(s, f) == []
    decreases |s|
  {
    if |s| > 0 {
      assert forall j :: 0 <= j < |s| - 1 ==> s[1..][j] == s[j + 1];
      FilterOfNone(s[1..], f);
    }
  }

  /** At most one element passes a filter that only one index can pass. */
  lemma {:induction false} FilterOfOne<T(!new)>(s: seq<T>, f: T -> bool, i: int)
    requires forall j :: 0 <= j < |s| && f(s[j]) ==> j == i
    ensures |Filter(s, f)| <= 1
    decreases |s|
  {
    if |s| > 0 {
      assert forall j :: 0 <= j < |s| - 1 ==> s[1..][j] == s[j + 1];
      if i != 0 {
        FilterOfOne(s[1..], f, i - 1);
      } else {
        FilterOfNone(s[1..], f);
      }
    }
  }

  /** A bar with a single key is out of bounds too, unless the position is that key. */
  lemma SingleKeyBarIsOutOfBounds(d: Decimal, p: Position, keys: seq<TimeKey>, i: int)
    requires 0 <= i < |keys| && keys[i].pos != d
    requires forall j :: 0 <= j < |keys| && keys[j].pos.bar == d.bar ==> j == i
    ensures TimeAt(d, p, keys) == Failure(PositionOutOfBounds)
  {
    FilterOfOne(keys, InBar(d.bar), i);
    assert ExactKey(d, keys).None?;
  }

  /**
   * With no exact key and at least two keys in the bar, the position is out
   * of meter bounds exactly when every key of its bar lies after it.
   */
  lemma BeforeFirstKeyIsOutOfMeterBounds(d: Decimal, p: Position, keys: seq<TimeKey>)
    requires !HasExactKey(d, keys) && |BarKeys(keys, d.bar)| >= 2
    ensures TimeAt(d, p, keys) == Failure(PositionOutOfMeterBounds(p)) <==>
              forall k :: KeyOfBar(k, keys, d.bar) ==> k.pos.frac > d.frac
  {
    var bk := BarKeys(keys, d.bar);
    var j := FirstAbove(bk, d.frac, 0);
    if j == 0 {
      forall k | KeyOfBar(k, keys, d.bar) ensures k.pos.frac > d.frac {
        var i :| 0 <= i < |bk| && bk[i] == k;
        BarKeysAscend(bk, d.bar, 0, i);
      }
    } else {
      assert KeyOfBar(bk[0], keys, d.bar);
    }
  }

  lemma PositiveFactor(x: real, y: real)
    requires y > 0.0 && x * y > 0.0
    ensures x > 0.0
  {
  }

  lemma RatioBounds(num: real, den: real)
    requires 0.0 < num < den
    ensures 0.0 < num / den < 1.0
  {
    var r := num / den;
    assert r * den == num;
    PositiveFactor(r, den);
    assert (1.0 - r) * den == den - num;
    PositiveFactor(1.0 - r, den);
  }

  /** The interpolated time lies between the times of the two keys. */
  lemma InterpolationIsBetween(a: TimeKey, b: TimeKey, x: real)
    requires a.pos.frac < x < b.pos.frac
    ensures a.time <= b.time ==> a.time <= Interpolate(a, b, x) <= b.time
    ensures b.time <= a.time ==> b.time <= Interpolate(a, b, x) <= a.time
  {
    var num := x - a.pos.frac;
    var den := b.pos.frac - a.pos.frac;
    var r := num / den;
    RatioBounds(num, den);
    var dt := b.time - a.time;
    assert Interpolate(a, b, x) == a.time + r * dt;
    if dt >= 0.0 {
      assert 0.0 <= r * dt <= dt;
    } else {
      assert dt <= r * dt <= 0.0;
    }
  }

  /** The sorted keys of the bar, with one key on each side of frac: the scan stops between them. */
  lemma ScanStopsBetween(bk: seq<TimeKey>, bar: int, frac: real, ia: int, ib: int)
    requires SortedBy(bk, KeyPos) && forall k :: k in bk ==> k.pos.bar == bar
    requires 0 <= ia < |bk| && bk[ia].pos.frac < frac
    requires 0 <= ib < |bk| && bk[ib].pos.frac > frac
    ensures 0 < FirstAbove(bk, frac, 0) < |bk|
    ensures forall i :: 0 <= i < |bk| ==>
              bk[i].pos.frac <= bk[FirstAbove(bk, frac, 0) - 1].pos.frac || bk[FirstAbove(bk, frac, 0)].pos.frac <= bk[i].pos.frac
  {
    var j := FirstAbove(bk, frac, 0);
    if j == 0 {
      BarKeysAscend(bk, bar, 0, ia);
    }
    forall i | 0 <= i < |bk|
      ensures bk[i].pos.frac <= bk[j - 1].pos.frac || bk[j].pos.frac <= bk[i].pos.frac
    {
      if i < j {
        BarKeysAscend(bk, bar, i, j - 1);
      } else {
        BarKeysAscend(bk, bar, j, i);
      }
    }
  }

  /** The keys a and b of the bar enclose frac with no key of the bar strictly between them. */
  ghost predicate Encloses(keys: seq<TimeKey>, bar: int, frac: real, a: TimeKey, b: TimeKey) {
    && KeyOfBar(a, keys, bar) && KeyOfBar(b, keys, bar)
    && a.pos.frac < frac < b.pos.frac
    && (forall k :: KeyOfBar(k, keys, bar) ==> k.pos.frac <= a.pos.frac || b.pos.frac <= k.pos.frac)
  }

  /** The scan stopped at j > 0 inside the bar keys: interpolation between keys j - 1 and j. */
  lemma TimeAtInterior(d: Decimal, p: Position, keys: seq<TimeKey>, j: nat)
    requires ExactKey(d, keys).None?
    requires 0 < j < |BarKeys(keys, d.bar)| && j == FirstAbove(BarKeys(keys, d.bar), d.frac, 0)
    requires BarKeys(keys, d.bar)[j - 1].pos.frac != d.frac
    ensures BarKeys(keys, d.bar)[j - 1].pos.frac != BarKeys(keys, d.bar)[j].pos.frac
    ensures TimeAt(d, p, keys) == Success(Interpolate(BarKeys(keys, d.bar)[j - 1], BarKeys(keys, d.bar)[j], d.frac))
  {
  }

  /** The scan ran past every bar key: the time of the last one. */
  lemma TimeAtPastEnd(d: Decimal, p: Position, keys: seq<TimeKey>)
    requires ExactKey(d, keys).None?
    requires |BarKeys(keys, d.bar)| >= 2 && FirstAbove(BarKeys(keys, d.bar), d.frac, 0) == |BarKeys(keys, d.bar)|
    ensures TimeAt(d, p, keys) == Success(BarKeys(keys, d.bar)[|BarKeys(keys, d.bar)| - 1].time)
  {
  }

  /** Over the sorted keys of a bar: the scan stops between two enclosing keys. */
  lemma SortedScanEncloses(bk: seq<TimeKey>, keys: seq<TimeKey>, bar: int, frac: real, ia: int, ib: int)
    requires SortedBy(bk, KeyPos) && forall k :: k in bk <==> KeyOfBar(k, keys, bar)
    requires 0 <= ia < |bk| && bk[ia].pos.frac < frac
    requires 0 <= ib < |bk| && bk[ib].pos.frac > frac
    requires forall k :: KeyOfBar(k, keys, bar) ==> k.pos.frac != frac
    ensures 0 < FirstAbove(bk, frac, 0) < |bk|
    ensures Encloses(keys, bar, frac, bk[FirstAbove(bk, frac, 0) - 1], bk[FirstAbove(bk, frac, 0)])
  {
    ScanStopsBetween(bk, bar, frac, ia, ib);
    var j := FirstAbove(bk, frac, 0);
    var a := bk[j - 1];
    var b := bk[j];
    assert a in bk && b in bk;
    forall k | KeyOfBar(k, keys, bar) ensures k.pos.frac <= a.pos.frac || b.pos.frac <= k.pos.frac {
      assert k in bk;
      var i :| 0 <= i < |bk| && bk[i] == k;
    }
  }

  /** Without an exact key, no key of the bar sits at its fraction. */
  lemma NoKeyOfBarAtFrac(d: Decimal, keys: seq<TimeKey>)
    requires !HasExactKey(d, keys)
    ensures forall k :: KeyOfBar(k, keys, d.bar) ==> k.pos.frac != d.frac
  {
    forall k | KeyOfBar(k, keys, d.bar) ensures k.pos.frac != d.frac {
      var i :| 0 <= i < |keys| && keys[i] == k;
      assert keys[i].pos != d;
    }
  }

  /** With bar keys on both sides of frac, the scan stops between two enclosing keys. */
  lemma ScanEncloses(keys: seq<TimeKey>, bar: int, frac: real, before: TimeKey, after: TimeKey)
    requires KeyOfBar(before, keys, bar) && before.pos.frac < frac
    requires KeyOfBar(after, keys, bar) && after.pos.frac > frac
    requires forall k :: KeyOfBar(k, keys, bar) ==> k.pos.frac != frac
    ensures 0 < FirstAbove(BarKeys(keys, bar), frac, 0) < |BarKeys(keys, bar)|
    ensures Encloses(keys, bar, frac, BarKeys(keys, bar)[FirstAbove(BarKeys(keys, bar), frac, 0) - 1],
                     BarKeys(keys, bar)[FirstAbove(BarKeys(keys, bar), frac, 0)])
  {
    var bk := BarKeys(keys, bar);
    var ia :| 0 <= ia < |bk| && bk[ia] == before;
    var ib :| 0 <= ib < |bk| && bk[ib] == after;
    SortedScanEncloses(bk, keys, bar, frac, ia, ib);
  }

  /**
   * A position with keys of its bar on both sides gets the time interpolated
   * between the last key before it and the first key after it, which lies
   * between their times.
   */
  lemma BetweenKeysIsInterpolated(d: Decimal, p: Position, keys: seq<TimeKey>, before: TimeKey, after: TimeKey)
    requires !HasExactKey(d, keys)
    requires KeyOfBar(before, keys, d.bar) && before.pos.frac < d.frac
    requires KeyOfBar(after, keys, d.bar) && after.pos.frac > d.frac
    ensures exists a, b ::
              && Encloses(keys, d.bar, d.frac, a, b)
              && TimeAt(d, p, keys) == Success(Interpolate(a, b, d.frac))
              && (a.time <= b.time ==> a.time <= Interpolate(a, b, d.frac) <= b.time)
  {
    NoKeyOfBarAtFrac(d, keys);
    ScanEncloses(keys, d.bar, d.frac, before, after);
    var bk := BarKeys(keys, d.bar);
    var j := FirstAbove(bk, d.frac, 0);
    TimeAtInterior(d, p, keys, j);
    InterpolationIsBetween(bk[j - 1], bk[j], d.frac);
  }

  /** Two different keys of a bar make at least two bar keys. */
  lemma TwoKeysOfBar(keys: seq<TimeKey>, bar: int, x: TimeKey, y: TimeKey)
    requires KeyOfBar(x, keys, bar) && KeyOfBar(y, keys, bar) && x != y
    ensures |BarKeys(keys, bar)| >= 2
  {
    var bk := BarKeys(keys, bar);
    var ix :| 0 <= ix < |bk| && bk[ix] == x;
    var iy :| 0 <= iy < |bk| && bk[iy] == y;
    assert ix != iy;
  }

  /** The last of the sorted bar keys is a latest key of the bar. */
  lemma LastBarKeyIsLatest(keys: seq<TimeKey>, bar: int)
    requires |BarKeys(keys, bar)| > 0
    ensures KeyOfBar(Last(BarKeys(keys, bar)), keys, bar)
    ensures forall k :: KeyOfBar(k, keys, bar) ==> k.pos.frac <= Last(BarKeys(keys, bar)).pos.frac
  {
    var bk := BarKeys(keys, bar);
    assert bk[|bk| - 1] in bk;
    forall k | KeyOfBar(k, keys, bar) ensures k.pos.frac <= Last(bk).pos.frac {
      assert k in bk;
      var i :| 0 <= i < |bk| && bk[i] == k;
      BarKeysAscend(bk, bar, i, |bk| - 1);
    }
  }

  /** When every bar key lies before frac the scan runs to the end. */
  lemma ScanPassesAll(keys: seq<TimeKey>, bar: int, frac: real)
    requires forall k :: KeyOfBar(k, keys, bar) ==> k.pos.frac < frac
    ensures FirstAbove(BarKeys(keys, bar), frac, 0) == |BarKeys(keys, bar)|
  {
  }

  /** A position after every key of its bar gets the time of the latest key. */
  lemma PastLastKeyGetsItsTime(d: Decimal, p: Position, keys: seq<TimeKey>, before: TimeKey, other: TimeKey)
    requires !HasExactKey(d, keys)
    requires KeyOfBar(before, keys, d.bar) && KeyOfBar(other, keys, d.bar) && before != other
    requires forall k :: KeyOfBar(k, keys, d.bar) ==> k.pos.frac < d.frac
    ensures exists a ::
              && KeyOfBar(a, keys, d.bar)
              && (forall k :: KeyOfBar(k, keys, d.bar) ==> k.pos.frac <= a.pos.frac)
              && TimeAt(d, p, keys) == Success(a.time)
  {
    TwoKeysOfBar(keys, d.bar, before, other);
    ScanPassesAll(keys, d.bar, d.frac);
    TimeAtPastEnd(d, p, keys);
    LastBarKeyIsLatest(keys, d.bar);
  }
}
