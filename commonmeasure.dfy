/**
 * findCommonMeasure: the coarsest subdivision (and tuplet) on whose grid a
 * set of positions can be written together.
 */
module CommonMeasure {
  import opened Wrappers
  import opened NotedTypes
  import opened Positions
  import opened Divisors

  /** The `[Measure, Tuplet | undefined]` pair the search returns. */
  datatype Candidate = Candidate(measure: Measure, tuplet: Option<Tuplet>)

  /** Each position's fraction of a whole note, scaled by MAX_MEASURE. */
  function ScaledOffsets(ps: seq<Position>): (r: seq<real>)
    ensures |r| == |ps|
    ensures forall i :: 0 <= i < |ps| ==> r[i] == Scaled(ToDecimal(ps[i]).frac)
  {
    if |ps| == 0 then [] else [Scaled(ToDecimal(ps[0]).frac)] + ScaledOffsets(ps[1..])
  }

  function Scaled(frac: real): real {
    frac * MAX_MEASURE as real
  }

  /** `o * measure / MAX_MEASURE` */
  function PlainTicks(o: real, m: int): real {
    o * m as real / MAX_MEASURE as real
  }

  /** `o * getTupletMultiplier(tuplet)` */
  function TupletTicks(o: real, t: Option<Tuplet>): real {
    o * TupletMultiplier(t)
  }

  /** `o * (tuplet?.[0] ?? 1)` */
  function Numerator(o: real, p: int): real {
    o * p as real
  }

  /** Every scaled offset lands on the plain grid of measure m. */
  predicate FitsMeasure(offsets: seq<real>, m: int) {
    forall i :: 0 <= i < |offsets| ==> IsInteger(PlainTicks(offsets[i], m))
  }

  /** Every scaled offset times p/q is an integer. */
  predicate FitsTuplet(offsets: seq<real>, t: Option<Tuplet>) {
    forall i :: 0 <= i < |offsets| ==> IsInteger(TupletTicks(offsets[i], t))
  }

  /** The first measure of MEASURES, from index k on, that fits every offset. */
  function FirstPlainMeasure(offsets: seq<real>, k: nat): (r: Option<Measure>)
    ensures r.Some? <==> exists j :: k <= j < |MEASURES| && FitsMeasure(offsets, MEASURES[j])
    ensures r.Some? ==> FitsMeasure(offsets, r.value)
    ensures r.Some? ==> forall j :: k <= j < |MEASURES| && MEASURES[j] < r.value ==> !FitsMeasure(offsets, MEASURES[j])
    decreases |MEASURES| - k
  {
    if k >= |MEASURES| then None
    else if FitsMeasure(offsets, MEASURES[k]) then Some(MEASURES[k])
    else FirstPlainMeasure(offsets, k + 1)
  }

  /** The second pass tries no tuplet first, then TUPLETS in array order. */
  const CANDIDATE_COUNT: nat := 1 + |TUPLETS|

  function TupletCandidate(k: nat): Option<Tuplet>
    requires k < CANDIDATE_COUNT
  {
    if k == 0 then None else Some(TUPLETS[k - 1])
  }

  /** `tuplet?.[0] ?? 1` */
  function TupletP(t: Option<Tuplet>): (r: int)
    ensures r > 0
  {
    if t.Some? then t.value.p else 1
  }

  /** `tuplet?.[1] ?? 1`; p / q is the tuplet multiplier. */
  function TupletQ(t: Option<Tuplet>): (r: int)
    ensures r > 0
    ensures TupletMultiplier(t) * r as real == TupletP(t) as real
  {
    if t.Some? then t.value.q else 1
  }

  /** The offsets multiplied by the tuplet's p, the arguments of gcd. */
  function Numerators(offsets: seq<real>, p: int): (r: seq<real>)
    ensures |r| == |offsets|
    ensures forall i :: 0 <= i < |offsets| ==> r[i] == Numerator(offsets[i], p)
  {
    if |offsets| == 0 then [] else [Numerator(offsets[0], p)] + Numerators(offsets[1..], p)
  }

  /** The raw integer offsets, 0 for a bar-only position. */
  function RawOffsets(ps: seq<Position>): (r: seq<int>)
    ensures |r| == |ps|
    ensures forall i :: 0 <= i < |ps| ==> r[i] == (if ps[i].RegularPos? then ps[i].offset else 0)
  {
    if |ps| == 0 then []
    else [if ps[0].RegularPos? then ps[0].offset else 0] + RawOffsets(ps[1..])
  }

  /** `[1, ...new Set(non-zero offsets)]`: the divisor corrections tried in order. */
  function OffsetMultipliers(ps: seq<Position>): (r: seq<int>)
    ensures |r| >= 1 && r[0] == 1
    ensures forall i :: 0 <= i < |r| ==> r[i] > 0
  {
    var raw := RawOffsets(ps);
    var rest := Normalize(raw);
    assert forall x :: x in rest ==> x > 0 by {
      forall x | x in rest ensures x > 0 {
        assert x in raw && x != 0;
        var i :| 0 <= i < |raw| && raw[i] == x;
      }
    }
    assert forall i :: 1 <= i < |rest| + 1 ==> ([1] + rest)[i] in rest;
    [1] + rest
  }

  /** `1 / (commonDivisor / MAX_MEASURE / offsetMultiplier) * q`. */
  function MeasureValue(cd: int, om: int, q: int): real
    requires cd != 0 && om != 0
  {
    1.0 / (cd as real / MAX_MEASURE as real / om as real) * q as real
  }

  /** isMeasure on a number that may not be an integer: MeasureOf of an integer value. */
  function AsMeasure(v: real): (r: Option<Measure>)
    ensures r.Some? <==> IsInteger(v) && IsMeasure(v.Floor)
    ensures r.Some? ==> r.value as real == v
  {
    if IsInteger(v) then MeasureOf(v.Floor) else None
  }

  /** The first offset multiplier, from index j on, that turns the divisor into a Measure. */
  function FirstMeasureValue(cd: int, oms: seq<int>, q: int, j: nat): (r: Option<Measure>)
    requires cd != 0 && forall i :: 0 <= i < |oms| ==> oms[i] > 0
    ensures r.Some? <==> exists i :: j <= i < |oms| && AsMeasure(MeasureValue(cd, oms[i], q)).Some?
    ensures r.Some? ==> exists i :: j <= i < |oms| && r.value as real == MeasureValue(cd, oms[i], q)
    decreases |oms| - j
  {
    if j >= |oms| then None
    else if AsMeasure(MeasureValue(cd, oms[j], q)).Some? then AsMeasure(MeasureValue(cd, oms[j], q))
    else FirstMeasureValue(cd, oms, q, j + 1)
  }

  /** Some regular input position carries exactly this tuplet. */
  predicate UsesTuplet(ps: seq<Position>, t: Tuplet) {
    exists i :: 0 <= i < |ps| && ps[i].RegularPos? && ps[i].tuplet == Some(t)
  }

  /**
   * One tuplet of the second pass: no measure when some offset is off the
   * tuplet's grid or all offsets are zero, otherwise the first offset
   * multiplier that turns the gcd of the numerators into a Measure.
   */
  function TupletMeasure(ps: seq<Position>, t: Option<Tuplet>): Result<Option<Measure>, Error> {
    var offsets := ScaledOffsets(ps);
    if !FitsTuplet(offsets, t) then Success(None)
    else
      var cd :- Gcd(Numerators(offsets, TupletP(t)));
      if cd.None? then Success(None)
      else
        GcdIsNonZero(Numerators(offsets, TupletP(t)));
        Success(FirstMeasureValue(cd.value, OffsetMultipliers(ps), TupletQ(t), 0))
  }

  /** The outcome of every candidate of the second pass, in the order they are tried. */
  function TupletMeasures(ps: seq<Position>): (r: seq<Result<Option<Measure>, Error>>)
    ensures |r| == CANDIDATE_COUNT
    ensures forall k :: 0 <= k < CANDIDATE_COUNT ==> r[k] == TupletMeasure(ps, TupletCandidate(k))
  {
    seq(CANDIDATE_COUNT, k requires 0 <= k < CANDIDATE_COUNT => TupletMeasure(ps, TupletCandidate(k)))
  }

  /**
   * The second pass from candidate k on, given each candidate's outcome ms
   * and the best result so far: a candidate is kept unless an earlier one has
   * a smaller measure, and the search stops at a tuplet that the input
   * already uses. A candidate's outcome is looked at only when it is reached.
   */
  function SecondPass(ps: seq<Position>, ms: seq<Result<Option<Measure>, Error>>, k: nat, result: Option<Candidate>)
    : Result<Option<Candidate>, Error>
    requires |ms| == CANDIDATE_COUNT
    decreases CANDIDATE_COUNT - k
  {
    if k >= CANDIDATE_COUNT then Success(result)
    else
      var t := TupletCandidate(k);
      var m :- ms[k];
      if m.None? then SecondPass(ps, ms, k + 1, result)
      else if result.Some? && result.value.measure < m.value then SecondPass(ps, ms, k + 1, result)
      else if t.Some? && UsesTuplet(ps, t.value) then Success(Some(Candidate(m.value, t)))
      else SecondPass(ps, ms, k + 1, Some(Candidate(m.value, t)))
  }

  lemma GcdIsNonZero(args: seq<real>)
    requires Gcd(args).Success? && Gcd(args).value.Some?
    ensures Gcd(args).value.value != 0
  {
    var s := Floors(args);
    assert s[0] in s;
  }

  /** What findCommonMeasure returns for a list of positions. */
  function CommonMeasureOf(ps: seq<Position>): Result<Option<Candidate>, Error> {
    if |ps| == 0 then Success(None)
    else
      var plain := FirstPlainMeasure(ScaledOffsets(ps), 0);
      if plain.Some? then Success(Some(Candidate(plain.value, None)))
      else SecondPass(ps, TupletMeasures(ps), 0, None)
  }

  /** Every position lies on the grid of the candidate: a whole number of its ticks. */
  predicate AllOnGrid(ps: seq<Position>, c: Candidate) {
    forall i :: 0 <= i < |ps| ==> OnGrid(ToDecimal(ps[i]), c.measure, TupletMultiplier(c.tuplet))
  }
}
