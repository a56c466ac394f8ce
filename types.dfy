/**
 * The value types of the notation engine: note subdivisions (Measure), tuplet
 * ratios (Tuplet), positions, notes, tempo and meter changes, compositions and
 * time keys.
 */
module NotedTypes {
  import opened Wrappers

  /** The largest subdivision; offsets are scaled by it when subdivisions are compared. */
  const MAX_MEASURE: int := 128

  /** The legal subdivisions, in ascending order. */
  const MEASURES: seq<int> := [1, 2, 4, 8, 16, 32, 64, 128]

  predicate IsMeasure(v: int) {
    v in MEASURES
  }

  /** isMeasure, returning the number as a Measure when it is one. */
  function MeasureOf(v: int): (r: Option<Measure>)
    ensures r.Some? <==> IsMeasure(v)
    ensures r.Some? ==> r.value == v
  {
    if v in {1, 2, 4, 8, 16, 32, 64, 128} then Some(v) else None
  }

  /** A whole-note subdivision: the length of one tick is 1/measure. */
  type Measure = m: int | m in {1, 2, 4, 8, 16, 32, 64, 128} witness 1

  /** A pair of numbers [p, q]: p tuplet ticks take the time of q ticks. */
  datatype Ratio = Ratio(p: int, q: int)

  /** The legal tuplets, in the order in which the common-subdivision search tries them. */
  const TUPLETS: seq<Ratio> := [Ratio(3, 2), Ratio(5, 4), Ratio(6, 4), Ratio(7, 4), Ratio(5, 3), Ratio(7, 8)]

  predicate IsTuplet(r: Ratio) {
    r in TUPLETS
  }

  type Tuplet = r: Ratio
    | r in {Ratio(3, 2), Ratio(5, 4), Ratio(6, 4), Ratio(7, 4), Ratio(5, 3), Ratio(7, 8)}
    witness Ratio(3, 2)

  /** beats per bar and the note value of one beat, e.g. Meter(6, 8). */
  datatype Meter = Meter(beats: nat, measure: Measure)

  /**
   * Either the start of a bar, or a bar plus an integer count of ticks of one
   * subdivision, optionally compressed by a tuplet.
   */
  datatype Position =
    | BarPos(bar: nat)
    | RegularPos(bar: nat, offset: nat, measure: Measure, tuplet: Option<Tuplet>)

  type BarPosition = p: Position | p.BarPos? witness BarPos(0)

  /** The canonical (bar, fraction of a whole note) pair of a position. */
  datatype Decimal = Decimal(bar: int, frac: real)

  /** `kind` is the code's optional `type` field (a note or an annotation). */
  datatype Note = Note(value: string, kind: Option<string>, position: Position,
                       duration: Option<nat>, attributes: Option<seq<string>>)

  datatype BpmChange = BpmChange(bpm: real, position: Position)

  datatype MeterChange = MeterChange(meter: Meter, position: BarPosition)

  datatype Composition = Composition(notes: seq<Note>, bpm: real, meter: Meter,
                                     bpmChanges: Option<seq<BpmChange>>,
                                     meterChanges: Option<seq<MeterChange>>)

  /** A breakpoint of the piecewise-linear map from position to seconds. */
  datatype TimeKey = TimeKey(pos: Decimal, time: real)

  /** The errors the engine throws, one constructor per distinct throw site. */
  datatype Error =
    | MeasureNotChangeable(position: Position, measure: Measure)
    | MeasureChangeMismatch(position: Position, measure: Measure)
    | TupletNotChangeable(position: Position, tuplet: Option<Tuplet>)
    | TupletChangeMismatch(position: Position, tuplet: Option<Tuplet>)
    | NonIntegerArguments
    | NoArguments
    | PositionOutOfBounds
    | PositionOutOfMeterBounds(position: Position)
    | InvalidNumber(text: string)
    | InvalidInteger(text: string)
    | InvalidPositionFormat(text: string)
    | InvalidMeasureFormat(text: string)
    | InvalidTupletFormat(text: string)
    | InvalidRecordFormat(text: string)
    | InvalidMeterChangeFormat(text: string)
    | InvalidMeterFormat(text: string)
    | InvalidBpmChangeFormat(text: string)
    | UnsupportedMeter(text: string)
    | NoCommonMeasure
    | FractionalBarTicks
    | NoGroupingMeasure

  function Pow2(k: nat): (r: nat)
    ensures r >= 1
  {
    if k == 0 then 1 else 2 * Pow2(k - 1)
  }

  /** MEASURES lists exactly the powers of two up to 2^7, strictly ascending. */
  lemma MeasuresArePowersOfTwo()
    ensures |MEASURES| == 8
    ensures forall i :: 0 <= i < |MEASURES| ==> MEASURES[i] == Pow2(i)
    ensures forall i, j :: 0 <= i < j < |MEASURES| ==> MEASURES[i] < MEASURES[j]
    ensures forall m :: IsMeasure(m) <==> exists k :: 0 <= k < 8 && m == Pow2(k)
    ensures forall m :: IsMeasure(m) <==> m in {1, 2, 4, 8, 16, 32, 64, 128}
  {
    assert Pow2(0) == 1 && Pow2(1) == 2 && Pow2(2) == 4 && Pow2(3) == 8;
    assert Pow2(4) == 16 && Pow2(5) == 32 && Pow2(6) == 64 && Pow2(7) == 128;
    forall m | IsMeasure(m) ensures exists k :: 0 <= k < 8 && m == Pow2(k) {
      var k :| 0 <= k < |MEASURES| && MEASURES[k] == m;
      assert m == Pow2(k);
    }
  }

  /** MAX_MEASURE is the largest subdivision. */
  lemma MaxMeasureIsLargest()
    ensures IsMeasure(MAX_MEASURE)
    ensures forall m :: IsMeasure(m) ==> 1 <= m <= MAX_MEASURE
    ensures forall m :: IsMeasure(m) && m != MAX_MEASURE ==> IsMeasure(2 * m)
  {
  }

  /** Doubling a subdivision stays legal exactly below MAX_MEASURE. */
  lemma DoubleMeasure(m: Measure)
    ensures IsMeasure(2 * m) <==> m < MAX_MEASURE
    ensures MAX_MEASURE % m == 0
  {
    assert m == 1 || m == 2 || m == 4 || m == 8 || m == 16 || m == 32 || m == 64 || m == 128;
  }

  /** There are six tuplets, all distinct, each a ratio p:q with p > q > 1 except 7:8. */
  lemma TupletsAreDistinct()
    ensures |TUPLETS| == 6
    ensures forall i, j :: 0 <= i < j < |TUPLETS| ==> TUPLETS[i] != TUPLETS[j]
    ensures forall t :: IsTuplet(t) ==> t.p >= 3 && t.q >= 2 && t.q <= 8
    ensures forall t :: IsTuplet(t) && t != Ratio(7, 8) ==> t.p > t.q
    ensures forall t: Tuplet :: IsTuplet(t)
  {
  }
}
