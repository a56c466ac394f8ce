/**
 * calculatePositionTime: the time of a position, read off the time keys by
 * an exact match or by linear interpolation between the keys of its bar.
 */
module PositionTime {
  import opened Wrappers
  import opened NotedTypes
  import opened Positions
  import opened Sorting

  /** The time of the first key exactly at d, when there is one. */
  function ExactKey(d: Decimal, keys: seq<TimeKey>): (r: Option<real>)
    ensures r.Some? <==> exists k :: 0 <= k < |keys| && keys[k].pos == d
    ensures r.Some? ==> exists k :: 0 <= k < |keys| && keys[k].pos == d && keys[k].time == r.value &&
                          forall j :: 0 <= j < k ==> keys[j].pos != d
  {
    if |keys| == 0 then None
    else if keys[0].pos == d then Some(keys[0].time)
    else
      var rest := ExactKey(d, keys[1..]);
      assert forall k :: 1 <= k < |keys| ==> keys[k] == keys[1..][k - 1];
      rest
  }

  function KeyPos(k: TimeKey): Decimal {
    k.pos
  }

  function InBar(bar: int): TimeKey -> bool {
    (k: TimeKey) => k.pos.bar == bar
  }

  /** The keys of one bar, sorted by position. */
  function BarKeys(keys: seq<TimeKey>, bar: int): (r: seq<TimeKey>)
    ensures SortedBy(r, KeyPos)
    ensures forall k :: k in r <==> k in keys && k.pos.bar == bar
  {
    var f := Filter(keys, InBar(bar));
    var s := Sort(f, KeyPos);
    assert forall k :: k in s <==> k in multiset(s);
    s
  }

  /** The index of the first key from j on past the fraction, or the length when there is none. */
  function FirstAbove(ks: seq<TimeKey>, frac: real, j: nat): (r: nat)
    requires j <= |ks|
    ensures j <= r <= |ks|
    ensures forall i :: j <= i < r ==> ks[i].pos.frac <= frac
    ensures r < |ks| ==> ks[r].pos.frac > frac
    decreases |ks| - j
  {
    if j == |ks| || ks[j].pos.frac > frac then j else FirstAbove(ks, frac, j + 1)
  }

  /** Linear interpolation between two keys. */
  function Interpolate(first: TimeKey, second: TimeKey, frac: real): real
    requires first.pos.frac != second.pos.frac
  {
    first.time + (frac - first.pos.frac) / (second.pos.frac - first.pos.frac) * (second.time - first.time)
  }

  /**
   * The time at decimal position d, for the position p that d is the decimal
   * of (p only names itself in the error).
   */
  function TimeAt(d: Decimal, p: Position, keys: seq<TimeKey>): Result<real, Error> {
    var exact := ExactKey(d, keys);
    if exact.Some? then Success(exact.value)
    else
      var barKeys := BarKeys(keys, d.bar);
      if |barKeys| < 2 then Failure(PositionOutOfBounds)
      else
        var j := FirstAbove(barKeys, d.frac, 0);
        if j == 0 then Failure(PositionOutOfMeterBounds(p))
        else
          var first := barKeys[j - 1];
          var second := if j < |barKeys| then barKeys[j] else barKeys[|barKeys| - 1];
          if first.pos.frac == d.frac || first.pos.frac == second.pos.frac then Success(first.time)
          else Success(Interpolate(first, second, d.frac))
  }

  /** What calculatePositionTime returns or throws. */
  function PositionTimeOf(p: Position, keys: seq<TimeKey>): Result<real, Error> {
    TimeAt(ToDecimal(p), p, keys)
  }

  /** The first loop: the shortcut for a position that is exactly a key. */
  method FindExactKey(d: Decimal, keys: seq<TimeKey>) returns (r: Option<real>)
    ensures r == ExactKey(d, keys)
  {
    var k := 0;
    while k < |keys|
      invariant 0 <= k <= |keys|
      invariant ExactKey(d, keys) == ExactKey(d, keys[k..])
    {
      assert keys[k..][1..] == keys[k + 1..];
      if keys[k].pos == d {
        return Some(keys[k].time);
      }
      k := k + 1;
    }
    return None;
  }

  /** The second loop: the last bar key at or before the fraction, and the first one after it. */
  method ScanBarKeys(barKeys: seq<TimeKey>, frac: real) returns (j: nat)
    ensures j == FirstAbove(barKeys, frac, 0)
  {
    j := 0;
    while j < |barKeys|
      invariant 0 <= j <= |barKeys|
      invariant FirstAbove(barKeys, frac, 0) == FirstAbove(barKeys, frac, j)
    {
      if barKeys[j].pos.frac > frac {
        break;
      }
      j := j + 1;
    }
  }

  /** calculatePositionTime */
  method CalculatePositionTime(p: Position, keys: seq<TimeKey>) returns (r: Result<real, Error>)
    ensures r == PositionTimeOf(p, keys)
  {
    var d := ToDecimal(p);
    r := TimeAtDecimal(d, p, keys);
  }

  method TimeAtDecimal(d: Decimal, p: Position, keys: seq<TimeKey>) returns (r: Result<real, Error>)
    ensures r == TimeAt(d, p, keys)
  {
    var exact := FindExactKey(d, keys);
    if exact.Some? {
      return Success(exact.value);
    }
    var barKeys := BarKeys(keys, d.bar);
    if |barKeys| < 2 {
      return Failure(PositionOutOfBounds);
    }
    var j := ScanBarKeys(barKeys, d.frac);
    if j == 0 {
      return Failure(PositionOutOfMeterBounds(p));
    }
    var firstKey := barKeys[j - 1];
    var secondKey := if j < |barKeys| then barKeys[j] else barKeys[|barKeys| - 1];
    if firstKey.pos.frac == d.frac || firstKey.pos.frac == secondKey.pos.frac {
      return Success(firstKey.time);
    }
    r := Success(Interpolate(firstKey, secondKey, d.frac));
  }
}
