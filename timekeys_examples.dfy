/**
 * The time keys of small compositions in 4/4 at 60 bpm over three bars: a
 * whole note lasts four seconds.
 */
module TimeKeysExamples {
  import opened Wrappers
  import opened NotedTypes
  import opened Positions
  import opened Sorting
  import opened Lookups
  import opened TimeKeys

  const FOUR_FOUR: Meter := Meter(4, 4)

  function Plain(): Composition {
    Composition([], 60.0, FOUR_FOUR, None, None)
  }

  /** A change to 6/4 at bar 1. */
  function SixFourFromBarOne(): Composition {
    Composition([], 60.0, FOUR_FOUR, None, Some([MeterChange(Meter(6, 4), BarPos(1))]))
  }

  /** A change to 120 bpm in the middle of bar 1. */
  function FasterMidBar(): Composition {
    Composition([], 60.0, FOUR_FOUR, Some([BpmChange(120.0, RegularPos(1, 1, 2, None))]), None)
  }

  /** A change to 120 bpm at the start of bar 1. */
  function FasterFromBarOne(): Composition {
    Composition([], 60.0, FOUR_FOUR, Some([BpmChange(120.0, BarPos(1))]), None)
  }

  /** A change to 3/4 in bar 0. */
  function ThreeFourAtBarZero(): Composition {
    Composition([], 60.0, FOUR_FOUR, None, Some([MeterChange(Meter(3, 4), BarPos(0))]))
  }

  function Key(bar: int, frac: real, time: real): TimeKey {
    TimeKey(Decimal(bar, frac), time)
  }

  lemma PlainMetersAreFourFour(n: nat)
    ensures FilledMeter(map[0 := FOUR_FOUR], n) == FOUR_FOUR
  {
  }

  /** Every bar of the plain composition lasts four seconds, and the walk closes at twelve. */
  lemma PlainTimeKeys()
    ensures TimeKeysOf(Plain(), Some(3)) ==
              [Key(0, 0.0, 0.0), Key(0, 1.0, 4.0), Key(1, 0.0, 4.0), Key(1, 1.0, 8.0),
               Key(2, 0.0, 8.0), Key(2, 1.0, 12.0), Key(3, 0.0, 12.0)]
  {
    var c := Plain();
    var m := BaseMeters(c);
    assert m == map[0 := FOUR_FOUR];
    assert SegmentTime(60.0, 1.0) == 4.0;
    var w0 := InitialWalk(c);
    assert w0 == Walk([], [], 60.0, 0.0, 0.0);
    var w1 := Bar(w0, 0, FOUR_FOUR, 3);
    assert w1 == Walk([Key(0, 0.0, 0.0), Key(0, 1.0, 4.0)], [], 60.0, 0.0, 4.0);
    var w2 := Bar(w1, 1, FOUR_FOUR, 3);
    assert w2.keys == w1.keys + [Key(1, 0.0, 4.0), Key(1, 1.0, 8.0)] && w2.time == 8.0;
    var w3 := Bar(w2, 2, FOUR_FOUR, 3);
    assert w3.keys == w2.keys + [Key(2, 0.0, 8.0), Key(2, 1.0, 12.0), Key(3, 0.0, 12.0)];
    PlainMetersAreFourFour(1);
    PlainMetersAreFourFour(2);
    assert Bars(w0, m, 0, 3) == Bars(w1, m, 1, 3) == Bars(w2, m, 2, 3) == Bars(w3, m, 3, 3) == w3;
  }

  /** After the change to 6/4 each bar lasts six seconds. */
  lemma SixFourTimeKeys()
    ensures TimeKeysOf(SixFourFromBarOne(), Some(3)) ==
              [Key(0, 0.0, 0.0), Key(0, 1.0, 4.0), Key(1, 0.0, 4.0), Key(1, 1.5, 10.0),
               Key(2, 0.0, 10.0), Key(2, 1.5, 16.0), Key(3, 0.0, 16.0)]
  {
    var c := SixFourFromBarOne();
    var six := Meter(6, 4);
    var m := BaseMeters(c);
    assert ChangeMap([MeterChange(six, BarPos(1))]) == map[1 := six];
    assert m == map[1 := six, 0 := FOUR_FOUR];
    assert FilledMeter(m, 1) == six && FilledMeter(m, 2) == six;
    assert BarLength(six) == 1.5;
    assert SegmentTime(60.0, 1.0) == 4.0 && SegmentTime(60.0, 1.5) == 6.0;
    var w0 := InitialWalk(c);
    assert w0 == Walk([], [], 60.0, 0.0, 0.0);
    var w1 := Bar(w0, 0, FOUR_FOUR, 3);
    assert w1 == Walk([Key(0, 0.0, 0.0), Key(0, 1.0, 4.0)], [], 60.0, 0.0, 4.0);
    var w2 := Bar(w1, 1, six, 3);
    assert w2.keys == w1.keys + [Key(1, 0.0, 4.0), Key(1, 1.5, 10.0)] && w2.time == 10.0;
    var w3 := Bar(w2, 2, six, 3);
    assert w3.keys == w2.keys + [Key(2, 0.0, 10.0), Key(2, 1.5, 16.0), Key(3, 0.0, 16.0)];
    assert Bars(w0, m, 0, 3) == Bars(w1, m, 1, 3) == Bars(w2, m, 2, 3) == Bars(w3, m, 3, 3) == w3;
  }

  function Fast(): TempoMark {
    TempoMark(Decimal(1, 0.5), 120.0)
  }

  lemma FasterMidBarMarks()
    ensures Marks(FasterMidBar()) == [Fast()]
  {
    var ch := BpmChange(120.0, RegularPos(1, 1, 2, None));
    assert ToDecimal(ch.position) == Decimal(1, 0.5);
    assert RawMarks([ch]) == [Fast()];
    assert [Fast()][..0] == [];
  }

  /** The first half of bar 1 takes two seconds, the second half at double speed one. */
  lemma FasterMidBarKeysOfBarOne(w: Walk)
    requires w == Walk([Key(0, 0.0, 0.0), Key(0, 1.0, 4.0)], [Fast()], 60.0, 0.0, 4.0)
    ensures Bar(w, 1, FOUR_FOUR, 3) ==
              Walk(w.keys + [Key(1, 0.0, 4.0), Key(1, 0.5, 6.0), Key(1, 1.0, 7.0)], [], 120.0, 0.0, 7.0)
  {
    assert SegmentTime(60.0, 0.5) == 2.0 && SegmentTime(120.0, 0.5) == 1.0;
    var w1 := BarStart(w, 1);
    assert TempoStep(w1, 1) == Walk(w1.keys + [Key(1, 0.5, 6.0)], [], 120.0, 0.5, 6.0);
    assert TempoChanges(w1, 1) == TempoStep(w1, 1);
  }

  lemma FasterMidBarTimeKeys()
    ensures TimeKeysOf(FasterMidBar(), Some(3)) ==
              [Key(0, 0.0, 0.0), Key(0, 1.0, 4.0), Key(1, 0.0, 4.0), Key(1, 0.5, 6.0), Key(1, 1.0, 7.0),
               Key(2, 0.0, 7.0), Key(2, 1.0, 9.0), Key(3, 0.0, 9.0)]
  {
    var c := FasterMidBar();
    var m := BaseMeters(c);
    assert m == map[0 := FOUR_FOUR];
    PlainMetersAreFourFour(1);
    PlainMetersAreFourFour(2);
    assert SegmentTime(60.0, 1.0) == 4.0 && SegmentTime(120.0, 1.0) == 2.0;
    FasterMidBarMarks();
    var w0 := InitialWalk(c);
    assert w0 == Walk([], [Fast()], 60.0, 0.0, 0.0);
    var w1 := Bar(w0, 0, FOUR_FOUR, 3);
    assert w1 == Walk([Key(0, 0.0, 0.0), Key(0, 1.0, 4.0)], [Fast()], 60.0, 0.0, 4.0);
    var w2 := Bar(w1, 1, FOUR_FOUR, 3);
    FasterMidBarKeysOfBarOne(w1);
    var w3 := Bar(w2, 2, FOUR_FOUR, 3);
    assert w3.keys == w2.keys + [Key(2, 0.0, 7.0), Key(2, 1.0, 9.0), Key(3, 0.0, 9.0)];
    assert Bars(w0, m, 0, 3) == Bars(w1, m, 1, 3) == Bars(w2, m, 2, 3) == Bars(w3, m, 3, 3) == w3;
  }

  /**
   * The composition's own meter replaces a meter change in bar 0 when the
   * keys are built, while the meter lookup reports the change.
   */
  lemma BarZeroChangeIsIgnored()
    ensures BarMeter(ThreeFourAtBarZero(), 0) == Meter(3, 4)
    ensures TimeKeysOf(ThreeFourAtBarZero(), Some(1)) == [Key(0, 0.0, 0.0), Key(0, 1.0, 4.0), Key(1, 0.0, 4.0)]
  {
    var c := ThreeFourAtBarZero();
    var ch := MeterChange(Meter(3, 4), BarPos(0));
    assert MetersUpTo(c, 0) == [ch] by {
      assert [ch][1..] == [];
    }
    assert Sort([ch], MeterKey) == [ch] by {
      assert [ch][..0] == [];
    }
    var m := BaseMeters(c);
    assert m == map[0 := FOUR_FOUR];
    assert SegmentTime(60.0, 1.0) == 4.0;
    var w0 := InitialWalk(c);
    assert w0 == Walk([], [], 60.0, 0.0, 0.0);
    var w1 := Bar(w0, 0, FOUR_FOUR, 1);
    assert Bars(w0, m, 0, 1) == Bars(w1, m, 1, 1) == w1;
  }

  function FastAtBarOne(): TempoMark {
    TempoMark(Decimal(1, 0.0), 120.0)
  }

  lemma FasterFromBarOneMarks()
    ensures Marks(FasterFromBarOne()) == [FastAtBarOne()]
  {
    assert RawMarks([BpmChange(120.0, BarPos(1))]) == [FastAtBarOne()];
    assert [FastAtBarOne()][..0] == [];
  }

  /** A change at the start of a bar takes no time: its key replaces the bar's start key. */
  lemma FasterFromBarOneKeysOfBarOne(w: Walk)
    requires w == Walk([Key(0, 0.0, 0.0), Key(0, 1.0, 4.0)], [FastAtBarOne()], 60.0, 0.0, 4.0)
    ensures Bar(w, 1, FOUR_FOUR, 3) == Walk(w.keys + [Key(1, 0.0, 4.0), Key(1, 1.0, 6.0)], [], 120.0, 0.0, 6.0)
  {
    assert SegmentTime(60.0, 0.0) == 0.0 && SegmentTime(120.0, 1.0) == 2.0;
    var w1 := BarStart(w, 1);
    assert DropLast(w1.keys) == w.keys;
    assert TempoStep(w1, 1) == Walk(w.keys + [Key(1, 0.0, 4.0)], [], 120.0, 0.0, 4.0);
    assert TempoChanges(w1, 1) == TempoStep(w1, 1);
  }

  lemma FasterFromBarOneTimeKeys()
    ensures TimeKeysOf(FasterFromBarOne(), Some(3)) ==
              [Key(0, 0.0, 0.0), Key(0, 1.0, 4.0), Key(1, 0.0, 4.0), Key(1, 1.0, 6.0),
               Key(2, 0.0, 6.0), Key(2, 1.0, 8.0), Key(3, 0.0, 8.0)]
  {
    var c := FasterFromBarOne();
    var m := BaseMeters(c);
    assert m == map[0 := FOUR_FOUR];
    PlainMetersAreFourFour(1);
    PlainMetersAreFourFour(2);
    assert SegmentTime(60.0, 1.0) == 4.0 && SegmentTime(120.0, 1.0) == 2.0;
    FasterFromBarOneMarks();
    var w0 := InitialWalk(c);
    assert w0 == Walk([], [FastAtBarOne()], 60.0, 0.0, 0.0);
    var w1 := Bar(w0, 0, FOUR_FOUR, 3);
    assert w1 == Walk([Key(0, 0.0, 0.0), Key(0, 1.0, 4.0)], [FastAtBarOne()], 60.0, 0.0, 4.0);
    var w2 := Bar(w1, 1, FOUR_FOUR, 3);
    FasterFromBarOneKeysOfBarOne(w1);
    var w3 := Bar(w2, 2, FOUR_FOUR, 3);
    assert w3.keys == w2.keys + [Key(2, 0.0, 6.0), Key(2, 1.0, 8.0), Key(3, 0.0, 8.0)];
    assert Bars(w0, m, 0, 3) == Bars(w1, m, 1, 3) == Bars(w2, m, 2, 3) == Bars(w3, m, 3, 3) == w3;
  }
}
