/**
 * What createParts promises about its parts: one per part of the bar, in
 * order, each with its index; a subdivision that holds every note of the
 * part unless it was taken over; a tuplet that fits the part; and ticks one
 * slot apart on that grid, one per slot of the part's length from its start,
 * each holding only the part's notes at its instant.
 */
module BarTicksFacts {
  import opened Wrappers
  import opened NotedTypes
  import opened Positions
  import opened BarParts
  import opened BarLines
  import opened BarTicks

  /** All parts are built exactly when every part is, and then part i is PartAt(i). */
  lemma PartsInOrder(notes: seq<Note>, bar: nat, meter: Meter, prev: seq<Part>, k: nat)
    ensures PartsUpTo(notes, bar, meter, prev, k).Success? <==>
              forall i :: 0 <= i < k ==> PartAt(notes, bar, meter, prev, i).Success?
    ensures PartsUpTo(notes, bar, meter, prev, k).Success? ==>
              |PartsUpTo(notes, bar, meter, prev, k).value| == k
              && forall i :: 0 <= i < k ==> PartsUpTo(notes, bar, meter, prev, k).value[i] == PartAt(notes, bar, meter, prev, i).value
  {
    CollectAll(PartResults(notes, bar, meter, prev, k));
    PartResultsAt(notes, bar, meter, prev, k);
  }

  /** Part i carries its index, and its subdivision and tuplet are the earlier part's when there is one. */
  lemma PartHeader(notes: seq<Note>, bar: nat, meter: Meter, prev: seq<Part>, i: nat)
    requires PartAt(notes, bar, meter, prev, i).Success?
    ensures var p := PartAt(notes, bar, meter, prev, i).value;
      && p.index == i
      && (i < |prev| ==> p.measure == prev[i].measure)
      && (i < |prev| && prev[i].tuplet.Some? && prev[i].tuplet.value.q as real <= PartSize(meter, p.measure) ==> p.tuplet == prev[i].tuplet)
      && (p.tuplet.Some? ==> p.tuplet.value.q as real <= PartSize(meter, p.measure))
  {
  }

  /**
   * Without an earlier part, the subdivision is at least DEFAULT_MEASURE and
   * every note's of the part, and the tuplet is the first one among the
   * part's notes when it fits.
   */
  lemma DetectedGrid(notes: seq<Note>, bar: nat, meter: Meter, prev: seq<Part>, i: nat)
    requires PartAt(notes, bar, meter, prev, i).Success? && i >= |prev|
    ensures var p := PartAt(notes, bar, meter, prev, i).value;
      var partNotes := PartNotes(notes, bar, meter, i);
      && p.measure >= DEFAULT_MEASURE
      && (forall n :: n in partNotes ==> p.measure >= NoteMeasure(n))
      && (p.tuplet.Some? ==> p.tuplet == FirstTuplet(partNotes))
      && (FirstTuplet(partNotes).Some? && FirstTuplet(partNotes).value.q as real <= PartSize(meter, p.measure) ==> p.tuplet == FirstTuplet(partNotes))
  {
    MaxMeasureIsMaximum(PartNotes(notes, bar, meter, i));
  }

  /** Moving the part's start fails exactly when moving it to the part's grid fails. */
  lemma PartFails(notes: seq<Note>, bar: nat, meter: Meter, prev: seq<Part>, i: nat)
    ensures var partNotes := PartNotes(notes, bar, meter, i);
      var m := PartMeasure(partNotes, prev, i);
      var t := PartTuplet(meter, partNotes, prev, i);
      PartAt(notes, bar, meter, prev, i).Failure? <==> TemplatePosition(bar, meter, i, m, t).Failure?
  {
  }

  /** A part has one tick per slot its length spans: tick j exists exactly when j is below the length. */
  lemma TicksSpanThePart(notes: seq<Note>, bar: nat, meter: Meter, prev: seq<Part>, i: nat, j: nat)
    requires PartAt(notes, bar, meter, prev, i).Success?
    ensures var p := PartAt(notes, bar, meter, prev, i).value;
      j < |p.ticks| <==> (j as real) < TickSpan(meter, p.measure, p.tuplet)
  {
    var p := PartAt(notes, bar, meter, prev, i).value;
    CeilNatCounts(TickSpan(meter, p.measure, p.tuplet), j);
  }

  /**
   * The ticks are consecutive slots of the part's grid: the first at the
   * part's start, each one slot after the one before.
   */
  lemma TicksOnTheGrid(notes: seq<Note>, bar: nat, meter: Meter, prev: seq<Part>, i: nat)
    requires PartAt(notes, bar, meter, prev, i).Success?
    ensures var p := PartAt(notes, bar, meter, prev, i).value;
      && (forall j :: 0 <= j < |p.ticks| ==>
            p.ticks[j].position.RegularPos? && p.ticks[j].position.bar == bar
            && p.ticks[j].position.measure == p.measure && p.ticks[j].position.tuplet == p.tuplet)
      && (forall j :: 0 < j < |p.ticks| ==> p.ticks[j].position.offset == p.ticks[j - 1].position.offset + 1)
      && (|p.ticks| > 0 ==> ToDecimal(p.ticks[0].position) == ToDecimal(RegularPos(bar, PartOffset(meter, i), meter.measure, None)))
  {
    var partNotes := PartNotes(notes, bar, meter, i);
    var m := PartMeasure(partNotes, prev, i);
    var t := PartTuplet(meter, partNotes, prev, i);
    var templ := TemplatePosition(bar, meter, i, m, t).value;
    var p := PartAt(notes, bar, meter, prev, i).value;
    assert p.ticks == TicksUpTo(partNotes, templ, PartTickCount(meter, m, t));
    if |p.ticks| > 0 {
      assert p.ticks[0].position == templ;
    }
  }

  /** Every note drawn in a tick is a note of the part at the tick's instant. */
  lemma TicksHoldThePartNotes(notes: seq<Note>, bar: nat, meter: Meter, prev: seq<Part>, i: nat, j: nat, l: Line)
    requires PartAt(notes, bar, meter, prev, i).Success?
    requires j < |PartAt(notes, bar, meter, prev, i).value.ticks|
    requires l in PartAt(notes, bar, meter, prev, i).value.ticks[j].noteMap
    ensures var tick := PartAt(notes, bar, meter, prev, i).value.ticks[j];
      var n := tick.noteMap[l].note;
      && n in notes && n.position.bar == bar && PartOf(n.position, meter) == i
      && ToDecimal(n.position) == ToDecimal(tick.position)
  {
    var partNotes := PartNotes(notes, bar, meter, i);
    var m := PartMeasure(partNotes, prev, i);
    var t := PartTuplet(meter, partNotes, prev, i);
    var templ := TemplatePosition(bar, meter, i, m, t).value;
    var tick := PartAt(notes, bar, meter, prev, i).value.ticks[j];
    assert tick == TickAt(partNotes, templ, j);
    var tickNotes := TickNotes(partNotes, tick.position);
    NoteMapHoldsTheNotes(tickNotes);
    TickNotesMembers(partNotes, tick.position);
    PartNotesMembers(notes, bar, meter, i);
  }

  /** A part's length in ticks of subdivision m is m times its length in whole notes. */
  lemma PartSizeScales(meter: Meter, m: Measure)
    ensures PartSize(meter, m) == m as real * PartSize(meter, 1)
  {
    var b := BeatsPerPart(meter);
    assert (m * b) as real == m as real * b as real;
    assert (1 * b) as real == b as real;
    ScaleQuotient(m as real, b as real, meter.measure as real);
  }

  lemma ScaleQuotient(x: real, y: real, d: real)
    requires d > 0.0
    ensures x * y / d == x * (y / d)
  {
  }

  /** Part i starts i part lengths into the bar. */
  lemma StartFraction(bar: nat, meter: Meter, i: nat)
    ensures ToDecimal(RegularPos(bar, PartOffset(meter, i), meter.measure, None)).frac == i as real * PartSize(meter, 1)
  {
    var b := BeatsPerPart(meter);
    var d := meter.measure as real;
    assert ToDecimal(RegularPos(bar, PartOffset(meter, i), meter.measure, None)).frac == (i * b) as real / (d * 1.0);
    assert (i * b) as real == i as real * b as real;
    assert PartSize(meter, 1) == b as real / d;
    ScaleQuotient(i as real, b as real, d);
  }
}
