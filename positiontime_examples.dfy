/**
 * Position times read off the keys of three bars of 4/4 at 60 bpm, where a
 * whole note lasts four seconds.
 */
module PositionTimeExamples {
  import opened Wrappers
  import opened NotedTypes
  import opened Positions
  import opened Sorting
  import opened PositionTime
  import opened PositionTimeFacts

  function Key(bar: int, frac: real, time: real): TimeKey {
    TimeKey(Decimal(bar, frac), time)
  }

  /** The keys of three plain bars, as the time-key walk produces them. */
  function PlainKeys(): seq<TimeKey> {
    [Key(0, 0.0, 0.0), Key(0, 1.0, 4.0), Key(1, 0.0, 4.0), Key(1, 1.0, 8.0),
     Key(2, 0.0, 8.0), Key(2, 1.0, 12.0), Key(3, 0.0, 12.0)]
  }

  /** The start of a bar is one of the keys. */
  lemma BarStartIsExact()
    ensures PositionTimeOf(BarPos(1), PlainKeys()) == Success(4.0)
  {
  }

  lemma BarZeroFilter()
    ensures Filter(PlainKeys(), InBar(0)) == [Key(0, 0.0, 0.0), Key(0, 1.0, 4.0)]
  {
    var ks := PlainKeys();
    FilterOfNone(ks[2..], InBar(0));
    assert ks[1..][1..] == ks[2..];
  }

  lemma SortOfTwo(a: TimeKey, b: TimeKey)
    requires !DecimalBefore(b.pos, a.pos)
    ensures Sort([a, b], KeyPos) == [a, b]
  {
    assert [a, b][..1] == [a];
    assert Sort([a], KeyPos) == [a];
    assert Insert(b, [a], KeyPos) == [a, b];
  }

  /** The keys of bar 0, in order. */
  lemma BarZeroKeys()
    ensures BarKeys(PlainKeys(), 0) == [Key(0, 0.0, 0.0), Key(0, 1.0, 4.0)]
  {
    BarZeroFilter();
    SortOfTwo(Key(0, 0.0, 0.0), Key(0, 1.0, 4.0));
  }

  lemma NoKeyAtSixth()
    ensures ExactKey(Decimal(0, 1.0 / 6.0), PlainKeys()).None?
  {
    forall k | 0 <= k < |PlainKeys()| ensures PlainKeys()[k].pos != Decimal(0, 1.0 / 6.0) {
    }
  }

  lemma ScanStopsAtBarEnd()
    ensures FirstAbove(BarKeys(PlainKeys(), 0), 1.0 / 6.0, 0) == 1
  {
    BarZeroKeys();
  }

  lemma SixthOfFourSeconds()
    ensures Interpolate(Key(0, 0.0, 0.0), Key(0, 1.0, 4.0), 1.0 / 6.0) == 2.0 / 3.0
  {
    var q := 1.0 / 6.0 / 1.0;
    assert q == 1.0 / 6.0;
    assert q * 4.0 == 2.0 / 3.0;
  }

  /** A sixth of a whole note into bar 0 lies two thirds of a second in. */
  lemma SixthIntoBarZero(p: Position)
    ensures TimeAt(Decimal(0, 1.0 / 6.0), p, PlainKeys()) == Success(2.0 / 3.0)
  {
    BarZeroKeys();
    NoKeyAtSixth();
    ScanStopsAtBarEnd();
    TimeAtInterior(Decimal(0, 1.0 / 6.0), p, PlainKeys(), 1);
    SixthOfFourSeconds();
  }

  /** One triplet quarter, a sixth of a whole note, lasts two thirds of a second. */
  lemma TripletQuarterIsInterpolated()
    ensures PositionTimeOf(RegularPos(0, 1, 4, Some(Ratio(3, 2))), PlainKeys()) == Success(2.0 / 3.0)
  {
    var p := RegularPos(0, 1, 4, Some(Ratio(3, 2)));
    assert ToDecimal(p) == Decimal(0, 1.0 / 6.0);
    SixthIntoBarZero(p);
  }

  /** A bar without keys is out of bounds. */
  lemma KeylessBarIsOutOfBounds()
    ensures PositionTimeOf(BarPos(5), PlainKeys()) == Failure(PositionOutOfBounds)
  {
    FilterOfNone(PlainKeys(), InBar(5));
  }

  /** A whole note into bar 2 is the closing key of that bar. */
  lemma WholeNoteIntoBarTwo()
    ensures PositionTimeOf(RegularPos(2, 1, 1, None), PlainKeys()) == Success(12.0)
  {
    assert ToDecimal(RegularPos(2, 1, 1, None)) == Decimal(2, 1.0);
  }
}
