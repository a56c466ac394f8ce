/**
 * What the time keys promise: the walk ends with the start of the bar after
 * the last one, and with positive tempos and tempo changes inside their bars
 * the keys are ordered by position and by time, and a bar line takes no time.
 */
module TimeKeysFacts {
  import opened Wrappers
  import opened NotedTypes
  import opened Positions
  import opened Sorting
  import opened TimeKeys

  predicate TimesSorted(keys: seq<TimeKey>) {
    forall a, b :: 0 <= a < b < |keys| ==> keys[a].time <= keys[b].time
  }

  predicate PositionsSorted(keys: seq<TimeKey>) {
    forall a, b :: 0 <= a < b < |keys| ==> !DecimalBefore(keys[b].pos, keys[a].pos)
  }

  /** Consecutive keys in different bars are at the same time: a bar line takes no time. */
  predicate BarLinesKeepTime(keys: seq<TimeKey>) {
    forall a :: 0 <= a < |keys| - 1 && keys[a].pos.bar != keys[a + 1].pos.bar ==> keys[a].time == keys[a + 1].time
  }

  predicate WellOrdered(keys: seq<TimeKey>) {
    TimesSorted(keys) && PositionsSorted(keys) && BarLinesKeepTime(keys)
  }

  /** x may be pushed after the keys without breaking their order. */
  predicate CanFollow(keys: seq<TimeKey>, x: TimeKey) {
    || |keys| == 0
    || (&& Last(keys).time <= x.time
        && !DecimalBefore(x.pos, Last(keys).pos)
        && (x.pos.bar != Last(keys).pos.bar ==> x.time == Last(keys).time))
  }

  lemma PushKeepsOrder(keys: seq<TimeKey>, x: TimeKey)
    requires WellOrdered(keys) && CanFollow(keys, x)
    ensures WellOrdered(keys + [x])
  {
    var r := keys + [x];
    forall a, b | 0 <= a < b < |r| ensures r[a].time <= r[b].time && !DecimalBefore(r[b].pos, r[a].pos) {
      if b == |keys| && a < |keys| - 1 {
        assert keys[a].time <= Last(keys).time;
        assert !DecimalBefore(Last(keys).pos, keys[a].pos);
      }
    }
  }

  predicate PositiveMarks(marks: seq<TempoMark>) {
    forall k :: 0 <= k < |marks| ==> marks[k].bpm > 0.0
  }

  /** No mark lies before bar i, and no mark has a negative offset. */
  predicate MarksFrom(marks: seq<TempoMark>, i: int) {
    forall k :: 0 <= k < |marks| ==> marks[k].pos.bar >= i && marks[k].pos.frac >= 0.0
  }

  /** Every mark in one of the first n bars lies inside its bar. */
  predicate MarksWithin(marks: seq<TempoMark>, meters: map<nat, Meter>, n: nat)
    requires 0 in meters
  {
    forall k :: 0 <= k < |marks| && 0 <= marks[k].pos.bar < n ==>
      marks[k].pos.frac <= BarLength(FilledMeter(meters, marks[k].pos.bar))
  }

  /** The state inside bar i of length len, between two tempo changes. */
  predicate InBar(w: Walk, i: nat, len: real) {
    && w.bpm > 0.0 && PositiveMarks(w.marks) && SortedBy(w.marks, MarkPos) && MarksFrom(w.marks, i)
    && (forall k :: 0 <= k < |w.marks| && w.marks[k].pos.bar == i ==> w.offset <= w.marks[k].pos.frac <= len)
    && 0.0 <= w.offset <= len
    && WellOrdered(w.keys) && |w.keys| > 0 && Last(w.keys) == TimeKey(Decimal(i, w.offset), w.time)
  }

  /** The state before bar i. */
  predicate BetweenBars(w: Walk, i: nat) {
    && w.bpm > 0.0 && PositiveMarks(w.marks) && SortedBy(w.marks, MarkPos) && MarksFrom(w.marks, i)
    && w.offset == 0.0 && WellOrdered(w.keys)
    && (|w.keys| > 0 ==> Last(w.keys).time == w.time && (Last(w.keys).pos.bar < i || Last(w.keys).pos == Decimal(i, 0.0)))
  }

  lemma SuffixKeepsMarks(marks: seq<TempoMark>, i: int, k: nat)
    requires k <= |marks| && PositiveMarks(marks) && SortedBy(marks, MarkPos) && MarksFrom(marks, i)
    ensures PositiveMarks(marks[k..]) && SortedBy(marks[k..], MarkPos) && MarksFrom(marks[k..], i)
  {
    var s := marks[k..];
    assert forall a :: 0 <= a < |s| ==> s[a] == marks[a + k];
  }

  lemma SuffixWithin(marks: seq<TempoMark>, meters: map<nat, Meter>, n: nat, k: nat)
    requires 0 in meters && k <= |marks| && MarksWithin(marks, meters, n)
    ensures MarksWithin(marks[k..], meters, n)
  {
    var s := marks[k..];
    assert forall a :: 0 <= a < |s| ==> s[a] == marks[a + k];
  }

  /** A tempo change keeps the state inside the bar, and only ever adds a key. */
  lemma TempoStepKeepsOrder(w: Walk, i: nat, len: real)
    requires InBar(w, i, len) && |w.marks| > 0 && w.marks[0].pos.bar == i
    ensures InBar(TempoStep(w, i), i, len)
    ensures w.keys <= TempoStep(w, i).keys
  {
    var m := w.marks[0];
    var delta := SegmentTime(w.bpm, m.pos.frac - w.offset);
    var x := TimeKey(Decimal(i, m.pos.frac), w.time + delta);
    var r := TempoStep(w, i);
    SuffixKeepsMarks(w.marks, i, 1);
    assert w.marks[1..] == r.marks;
    forall k | 0 <= k < |r.marks| && r.marks[k].pos.bar == i
      ensures r.offset <= r.marks[k].pos.frac <= len
    {
      assert r.marks[k] == w.marks[k + 1];
      assert !DecimalBefore(MarkPos(w.marks[k + 1]), MarkPos(w.marks[0]));
    }
    if delta == 0.0 {
      assert x == Last(w.keys);
      assert r.keys == w.keys;
    } else {
      assert CanFollow(w.keys, x);
      PushKeepsOrder(w.keys, x);
    }
  }

  /** The inner loop keeps the state inside the bar, and leaves only marks of later bars. */
  lemma {:induction false} TempoChangesKeepOrder(w: Walk, i: nat, len: real)
    requires InBar(w, i, len)
    ensures InBar(TempoChanges(w, i), i, len)
    ensures w.keys <= TempoChanges(w, i).keys
    ensures MarksFrom(TempoChanges(w, i).marks, i + 1)
    ensures |TempoChanges(w, i).marks| <= |w.marks|
    ensures TempoChanges(w, i).marks == w.marks[|w.marks| - |TempoChanges(w, i).marks|..]
    decreases |w.marks|
  {
    if |w.marks| > 0 && w.marks[0].pos.bar == i {
      TempoStepKeepsOrder(w, i, len);
      TempoChangesKeepOrder(TempoStep(w, i), i, len);
      var r := TempoChanges(w, i);
      assert r == TempoChanges(TempoStep(w, i), i);
      assert w.marks[1..][|w.marks| - 1 - |r.marks|..] == w.marks[|w.marks| - |r.marks|..];
    } else {
      var ms := w.marks;
      forall k | 0 <= k < |ms| ensures ms[k].pos.bar >= i + 1 {
        assert !DecimalBefore(MarkPos(ms[k]), MarkPos(ms[0]));
      }
    }
  }

  /** The key at the start of a bar opens the state inside it. */
  lemma BarStartKeepsOrder(w: Walk, i: nat, len: real)
    requires BetweenBars(w, i) && len >= 0.0
    requires forall k :: 0 <= k < |w.marks| && w.marks[k].pos.bar == i ==> w.marks[k].pos.frac <= len
    ensures InBar(BarStart(w, i), i, len)
  {
    PushKeepsOrder(w.keys, TimeKey(Decimal(i, 0.0), w.time));
  }

  /** The key at the end of a bar (and after the last bar, that of the next bar) closes it. */
  lemma BarEndKeepsOrder(w: Walk, i: nat, meter: Meter, n: nat)
    requires InBar(w, i, BarLength(meter)) && MarksFrom(w.marks, i + 1)
    ensures BetweenBars(BarEnd(w, i, meter, n), i + 1)
    ensures w.keys <= BarEnd(w, i, meter, n).keys
  {
    var len := BarLength(meter);
    var d := SegmentTime(w.bpm, len - w.offset);
    assert d >= 0.0;
    var t := w.time + d;
    var x := TimeKey(Decimal(i, len), t);
    var keys := w.keys + [x];
    PushKeepsOrder(w.keys, x);
    var r := BarEnd(w, i, meter, n);
    if i == n - 1 {
      var y := TimeKey(Decimal(i + 1, 0.0), t);
      PushKeepsOrder(keys, y);
      assert r == Walk(keys + [y], w.marks, w.bpm, 0.0, t);
    } else {
      assert r == Walk(keys, w.marks, w.bpm, 0.0, t);
    }
  }

  /** Marks of bar i of a walk inside the first n bars lie inside bar i. */
  lemma MarksOfBarWithin(marks: seq<TempoMark>, meters: map<nat, Meter>, i: nat, n: nat)
    requires 0 in meters && i < n && MarksWithin(marks, meters, n)
    ensures forall k :: 0 <= k < |marks| && marks[k].pos.bar == i ==> marks[k].pos.frac <= BarLength(FilledMeter(meters, i))
  {
  }

  /** One bar keeps the walk ordered and only ever adds keys. */
  lemma BarKeepsOrder(w: Walk, meters: map<nat, Meter>, i: nat, n: nat)
    requires 0 in meters && i < n && BetweenBars(w, i) && MarksWithin(w.marks, meters, n)
    ensures BetweenBars(Bar(w, i, FilledMeter(meters, i), n), i + 1)
    ensures MarksWithin(Bar(w, i, FilledMeter(meters, i), n).marks, meters, n)
    ensures w.keys <= Bar(w, i, FilledMeter(meters, i), n).keys
  {
    var meter := FilledMeter(meters, i);
    var w1 := BarStart(w, i);
    MarksOfBarWithin(w.marks, meters, i, n);
    BarStartKeepsOrder(w, i, BarLength(meter));
    var w2 := TempoChanges(w1, i);
    TempoChangesKeepOrder(w1, i, BarLength(meter));
    SuffixWithin(w1.marks, meters, n, |w1.marks| - |w2.marks|);
    BarEndKeepsOrder(w2, i, meter, n);
    assert Bar(w, i, meter, n) == BarEnd(w2, i, meter, n);
  }

  /** The walk from bar i on keeps the keys ordered. */
  lemma {:induction false} BarsKeepOrder(w: Walk, meters: map<nat, Meter>, i: nat, n: nat)
    requires 0 in meters && BetweenBars(w, i) && MarksWithin(w.marks, meters, n)
    ensures WellOrdered(Bars(w, meters, i, n).keys)
    ensures w.keys <= Bars(w, meters, i, n).keys
    decreases n - i
  {
    if i < n {
      BarKeepsOrder(w, meters, i, n);
      BarsKeepOrder(Bar(w, i, FilledMeter(meters, i), n), meters, i + 1, n);
    }
  }

  predicate PositiveTempo(c: Composition) {
    && c.bpm > 0.0
    && (c.bpmChanges.Some? ==> forall k :: 0 <= k < |c.bpmChanges.value| ==> c.bpmChanges.value[k].bpm > 0.0)
  }

  /** Every tempo change in one of the first n bars lies inside its bar. */
  predicate ChangesWithinBars(c: Composition, n: nat) {
    c.bpmChanges.Some? ==>
      forall k :: 0 <= k < |c.bpmChanges.value| && c.bpmChanges.value[k].position.bar < n ==>
        ToDecimal(c.bpmChanges.value[k].position).frac <= BarLength(FilledMeter(BaseMeters(c), c.bpmChanges.value[k].position.bar))
  }

  lemma InitialWalkIsOrdered(c: Composition, n: nat)
    requires PositiveTempo(c) && ChangesWithinBars(c, n)
    ensures NonZeroTempo(c)
    ensures BetweenBars(InitialWalk(c), 0) && MarksWithin(InitialWalk(c).marks, BaseMeters(c), n)
  {
    var ms := Marks(c);
    forall k | 0 <= k < |ms|
      ensures ms[k].bpm > 0.0 && ms[k].pos.bar >= 0 && ms[k].pos.frac >= 0.0
      ensures 0 <= ms[k].pos.bar < n ==> ms[k].pos.frac <= BarLength(FilledMeter(BaseMeters(c), ms[k].pos.bar))
    {
      MarkIsChange(c, k);
    }
  }

  /**
   * With positive tempos and every tempo change inside its bar, the keys are
   * ordered by position and by time, and consecutive keys on either side of
   * a bar line are at the same time.
   */
  lemma TimeKeysAreOrdered(c: Composition, barCount: Option<nat>)
    requires PositiveTempo(c) && ChangesWithinBars(c, BarTotal(c, barCount))
    ensures NonZeroTempo(c)
    ensures WellOrdered(TimeKeysOf(c, barCount))
  {
    InitialWalkIsOrdered(c, BarTotal(c, barCount));
    BarsKeepOrder(InitialWalk(c), BaseMeters(c), 0, BarTotal(c, barCount));
  }

  /**
   * The keys end with the end of bar n - 1, of length len, followed by the
   * start of bar n at the same time.
   */
  predicate EndsWithNextBar(keys: seq<TimeKey>, n: int, len: real) {
    && |keys| >= 2
    && keys[|keys| - 2].pos == Decimal(n - 1, len)
    && keys[|keys| - 1] == TimeKey(Decimal(n, 0.0), keys[|keys| - 2].time)
  }

  lemma {:induction false} BarsEndWithNextBar(w: Walk, meters: map<nat, Meter>, i: nat, n: nat)
    requires Ready(w) && 0 in meters && i < n
    ensures EndsWithNextBar(Bars(w, meters, i, n).keys, n, BarLength(FilledMeter(meters, n - 1)))
    decreases n - i
  {
    var next := Bar(w, i, FilledMeter(meters, i), n);
    if i == n - 1 {
      assert Bars(w, meters, i, n) == Bars(next, meters, n, n) == next;
    } else {
      BarsEndWithNextBar(next, meters, i + 1, n);
    }
  }

  /**
   * createTimeKeys emits nothing for no bars, and otherwise ends with the end
   * of the last bar followed by the start of the bar after it, at the total
   * duration.
   */
  lemma TimeKeysEnd(c: Composition, barCount: Option<nat>)
    requires NonZeroTempo(c)
    ensures BarTotal(c, barCount) == 0 ==> TimeKeysOf(c, barCount) == []
    ensures BarTotal(c, barCount) > 0 ==>
              EndsWithNextBar(TimeKeysOf(c, barCount), BarTotal(c, barCount),
                              BarLength(FilledMeter(BaseMeters(c), BarTotal(c, barCount) - 1)))
  {
    var n := BarTotal(c, barCount);
    if n > 0 {
      BarsEndWithNextBar(InitialWalk(c), BaseMeters(c), 0, n);
    }
  }
}
