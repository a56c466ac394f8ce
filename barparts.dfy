/**
 * How the editor and the renderer cut a bar into parts: a part is three
 * beats long in a meter whose beats divide by three and one beat otherwise,
 * and a note belongs to the part its fraction of the bar falls into. Without
 * parts to take them from, a part's subdivision and tuplet are read off its
 * notes.
 */
module BarParts {
  import opened Wrappers
  import opened NotedTypes
  import opened Positions

  const DEFAULT_MEASURE: Measure := 8

  /** The beats of one part. */
  function BeatsPerPart(meter: Meter): nat {
    if meter.beats % 3 == 0 then 3 else 1
  }

  /** calculatePartSize: the length of one part in notes of 1/m, as a fraction of a whole note times m. */
  function PartSize(meter: Meter, m: int): real {
    (m * BeatsPerPart(meter)) as real / meter.measure as real
  }

  /** The number of parts of a bar. */
  function PartsCount(meter: Meter): nat {
    if meter.beats % 3 == 0 then meter.beats / 3 else meter.beats
  }

  /** The part a position falls into: its fraction of the bar counted in part lengths, rounded down. */
  function PartOf(p: Position, meter: Meter): int {
    (ToDecimal(p).frac / PartSize(meter, 1)).Floor
  }

  /** The parts tile the bar: as many parts as needed for its beats, each of a whole number of beats. */
  lemma PartsTileTheBar(meter: Meter)
    ensures PartsCount(meter) * BeatsPerPart(meter) == meter.beats
    ensures PartsCount(meter) as real * PartSize(meter, 1) == meter.beats as real / meter.measure as real
    ensures meter.beats > 0 ==> PartsCount(meter) > 0
  {
    var k := PartsCount(meter) * BeatsPerPart(meter);
    assert k == meter.beats;
    ScaleFraction(PartsCount(meter), BeatsPerPart(meter), meter.measure);
  }

  lemma ScaleFraction(n: nat, b: nat, m: int)
    requires m > 0
    ensures n as real * ((1 * b) as real / m as real) == (n * b) as real / m as real
  {
  }

  /** The start of part i in notes of 1/measure is i parts of beats: what createParts writes as the part's offset. */
  lemma PartStart(meter: Meter, i: nat)
    ensures i as real * PartSize(meter, meter.measure) == (i * BeatsPerPart(meter)) as real
  {
    var m := meter.measure as real;
    assert (meter.measure * BeatsPerPart(meter)) as real == m * BeatsPerPart(meter) as real;
  }

  lemma DivisionBounds(a: real, s: real, j: int)
    requires s > 0.0
    ensures j as real <= a / s <==> j as real * s <= a
    ensures a / s < (j + 1) as real <==> a < (j + 1) as real * s
  {
    assert a / s * s == a;
    if j as real <= a / s {
      assert j as real * s <= a / s * s;
    }
    if j as real * s <= a {
      assert j as real <= a / s;
    }
    if a / s < (j + 1) as real {
      assert a / s * s < (j + 1) as real * s;
    }
  }

  /** a / s rounds down to j exactly when a lies in [j * s, (j + 1) * s). */
  lemma FloorSpan(a: real, s: real, j: int)
    requires s > 0.0
    ensures (a / s).Floor == j <==> j as real * s <= a < (j + 1) as real * s
  {
    DivisionBounds(a, s, j);
  }

  lemma MultiplyMonotone(x: real, y: real, s: real)
    requires s > 0.0 && x <= y
    ensures x * s <= y * s
  {
  }

  /** For a >= 0, a / s rounds down into [0, n) exactly when a < n * s. */
  lemma FloorBelow(a: real, s: real, n: nat)
    requires s > 0.0 && a >= 0.0
    ensures a < n as real * s <==> 0 <= (a / s).Floor < n
  {
    var j := (a / s).Floor;
    FloorSpan(a, s, j);
    DivisionBounds(a, s, 0);
    if j >= n {
      FloorAtOrPast(a, s, j, n);
    } else {
      FloorBefore(a, s, j, n);
    }
  }

  lemma FloorAtOrPast(a: real, s: real, j: int, n: nat)
    requires s > 0.0 && j >= n && j as real * s <= a
    ensures a >= n as real * s
  {
    MultiplyMonotone(n as real, j as real, s);
  }

  lemma FloorBefore(a: real, s: real, j: int, n: nat)
    requires s > 0.0 && j < n && a < (j + 1) as real * s
    ensures a < n as real * s
  {
    MultiplyMonotone((j + 1) as real, n as real, s);
  }

  /** A position is in part j exactly when its fraction of the bar lies in the span of that part. */
  lemma PartOfSpan(p: Position, meter: Meter, j: int)
    ensures PartOf(p, meter) == j <==>
              j as real * PartSize(meter, 1) <= ToDecimal(p).frac < (j + 1) as real * PartSize(meter, 1)
  {
    FloorSpan(ToDecimal(p).frac, PartSize(meter, 1), j);
  }

  /** A position inside the bar falls into one of its parts; one at or past the end of the bar into none. */
  lemma PartOfInsideBar(p: Position, meter: Meter)
    ensures ToDecimal(p).frac < meter.beats as real / meter.measure as real <==> 0 <= PartOf(p, meter) < PartsCount(meter)
  {
    PartsTileTheBar(meter);
    FloorBelow(ToDecimal(p).frac, PartSize(meter, 1), PartsCount(meter));
  }

  /** The notes of a bar that fall into part i, in order. */
  function PartNotes(notes: seq<Note>, bar: nat, meter: Meter, i: int): (r: seq<Note>)
    ensures |r| <= |notes|
  {
    if |notes| == 0 then []
    else
      var n := notes[|notes| - 1];
      PartNotes(notes[..|notes| - 1], bar, meter, i) + (if n.position.bar == bar && PartOf(n.position, meter) == i then [n] else [])
  }

  lemma {:induction false} PartNotesMembers(notes: seq<Note>, bar: nat, meter: Meter, i: int)
    ensures forall n :: n in PartNotes(notes, bar, meter, i) <==> n in notes && n.position.bar == bar && PartOf(n.position, meter) == i
    decreases |notes|
  {
    if |notes| > 0 {
      PartNotesMembers(notes[..|notes| - 1], bar, meter, i);
      assert notes == notes[..|notes| - 1] + [notes[|notes| - 1]];
    }
  }

  /** Every note of the bar inside it is in exactly one part; the notes past its end are in none. */
  lemma NoteInOnePart(notes: seq<Note>, bar: nat, meter: Meter, n: Note)
    requires n in notes && n.position.bar == bar
    ensures ToDecimal(n.position).frac < meter.beats as real / meter.measure as real ==>
              exists i :: 0 <= i < PartsCount(meter) && n in PartNotes(notes, bar, meter, i)
    ensures forall i, j :: n in PartNotes(notes, bar, meter, i) && n in PartNotes(notes, bar, meter, j) ==> i == j
    ensures ToDecimal(n.position).frac >= meter.beats as real / meter.measure as real ==>
              forall i :: 0 <= i < PartsCount(meter) ==> n !in PartNotes(notes, bar, meter, i)
  {
    PartOfInsideBar(n.position, meter);
    forall i {
      PartNotesMembers(notes, bar, meter, i);
    }
    var j := PartOf(n.position, meter);
    if ToDecimal(n.position).frac < meter.beats as real / meter.measure as real {
      assert n in PartNotes(notes, bar, meter, j);
    }
  }

  // ------------------------------------------------------- measure and tuplet

  /** The subdivision a note counts in: its measure, or 1 for a bar-only position. */
  function NoteMeasure(n: Note): Measure {
    if n.position.RegularPos? then n.position.measure else 1
  }

  /** The largest of DEFAULT_MEASURE and the notes' subdivisions, taken in order. */
  function MaxMeasure(notes: seq<Note>): Measure {
    if |notes| == 0 then DEFAULT_MEASURE
    else
      var r := MaxMeasure(notes[..|notes| - 1]);
      var v := NoteMeasure(notes[|notes| - 1]);
      if v > r then v else r
  }

  /** The detected subdivision is at least DEFAULT_MEASURE and every note's, and is one of them. */
  lemma {:induction false} MaxMeasureIsMaximum(notes: seq<Note>)
    ensures MaxMeasure(notes) >= DEFAULT_MEASURE
    ensures forall n :: n in notes ==> MaxMeasure(notes) >= NoteMeasure(n)
    ensures MaxMeasure(notes) == DEFAULT_MEASURE || exists n :: n in notes && MaxMeasure(notes) == NoteMeasure(n)
    decreases |notes|
  {
    if |notes| > 0 {
      var init := notes[..|notes| - 1];
      MaxMeasureIsMaximum(init);
      assert notes == init + [notes[|notes| - 1]];
    }
  }

  /** The tuplet of a note, none for a bar-only position. */
  function NoteTuplet(n: Note): Option<Tuplet> {
    if n.position.RegularPos? then n.position.tuplet else None
  }

  /** The first tuplet among the notes, in order. */
  function FirstTuplet(notes: seq<Note>): Option<Tuplet> {
    if |notes| == 0 then None
    else if NoteTuplet(notes[0]).Some? then NoteTuplet(notes[0])
    else FirstTuplet(notes[1..])
  }

  /** No note carries a tuplet, or the result is the tuplet of the first one that does. */
  lemma {:induction false} FirstTupletIsFirst(notes: seq<Note>)
    ensures FirstTuplet(notes).None? <==> forall k :: 0 <= k < |notes| ==> NoteTuplet(notes[k]).None?
    ensures FirstTuplet(notes).Some? ==>
              exists k :: 0 <= k < |notes| && NoteTuplet(notes[k]) == FirstTuplet(notes)
                && forall j :: 0 <= j < k ==> NoteTuplet(notes[j]).None?
    decreases |notes|
  {
    if |notes| > 0 && NoteTuplet(notes[0]).None? {
      var rest := notes[1..];
      FirstTupletIsFirst(rest);
      assert forall k :: 1 <= k < |notes| ==> notes[k] == rest[k - 1];
      if FirstTuplet(notes).Some? {
        var k :| 0 <= k < |rest| && NoteTuplet(rest[k]) == FirstTuplet(rest) && forall j :: 0 <= j < k ==> NoteTuplet(rest[j]).None?;
        assert NoteTuplet(notes[k + 1]) == FirstTuplet(notes);
      }
      if forall k :: 0 <= k < |rest| ==> NoteTuplet(rest[k]).None? {
        assert forall k :: 0 <= k < |notes| ==> NoteTuplet(notes[k]).None?;
      }
    }
  }

  /** A tuplet that does not fit the part is dropped: its q exceeds the part's length in notes of 1/measure. */
  function FittingTuplet(meter: Meter, measure: Measure, t: Option<Tuplet>): (r: Option<Tuplet>)
    ensures r.Some? ==> r == t && r.value.q as real <= PartSize(meter, measure)
    ensures t.Some? && t.value.q as real <= PartSize(meter, measure) ==> r == t
  {
    if t.Some? && t.value.q as real > PartSize(meter, measure) then None else t
  }
}
