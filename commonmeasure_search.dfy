/** findCommonMeasure as its own loops run it. */
module CommonMeasureSearch {
  import opened Wrappers
  import opened NotedTypes
  import opened Positions
  import opened Divisors
  import opened CommonMeasure

  /** The first pass of findCommonMeasure: plain measures, smallest first. */
  method FindPlainMeasure(offsets: seq<real>) returns (m: Option<Measure>)
    ensures m == FirstPlainMeasure(offsets, 0)
  {
    var k := 0;
    while k < |MEASURES|
      invariant 0 <= k <= |MEASURES|
      invariant FirstPlainMeasure(offsets, 0) == FirstPlainMeasure(offsets, k)
    {
      if FitsMeasure(offsets, MEASURES[k]) {
        return Some(MEASURES[k]);
      }
      k := k + 1;
    }
    return None;
  }

  /** The inner loop over the offset multipliers, stopping at the first Measure. */
  method FindMeasureValue(cd: int, oms: seq<int>, q: int) returns (m: Option<Measure>)
    requires cd != 0 && forall i :: 0 <= i < |oms| ==> oms[i] > 0
    ensures m == FirstMeasureValue(cd, oms, q, 0)
  {
    m := None;
    var i := 0;
    while i < |oms|
      invariant 0 <= i <= |oms|
      invariant FirstMeasureValue(cd, oms, q, 0) == FirstMeasureValue(cd, oms, q, i)
    {
      var value := AsMeasure(MeasureValue(cd, oms[i], q));
      if value.Some? {
        m := value;
        break;
      }
      i := i + 1;
    }
  }

  /** The body of the second pass for one tuplet. */
  method FindTupletMeasure(ps: seq<Position>, offsets: seq<real>, t: Option<Tuplet>)
    returns (r: Result<Option<Measure>, Error>)
    requires offsets == ScaledOffsets(ps)
    ensures r == TupletMeasure(ps, t)
  {
    if !FitsTuplet(offsets, t) {
      return Success(None);
    }
    var cd :- Gcd(Numerators(offsets, TupletP(t)));
    if cd.None? {
      return Success(None);
    }
    GcdIsNonZero(Numerators(offsets, TupletP(t)));
    var measure := FindMeasureValue(cd.value, OffsetMultipliers(ps), TupletQ(t));
    return Success(measure);
  }

  /**
   * One step of the second pass, given the candidate's measure: keep it unless
   * the result so far is smaller, and stop at a tuplet the input uses.
   */
  method KeepCandidate(ps: seq<Position>, ghost ms: seq<Result<Option<Measure>, Error>>, j: nat,
                       result: Option<Candidate>, measure: Option<Measure>)
    returns (next: Option<Candidate>, stop: bool)
    requires |ms| == CANDIDATE_COUNT && j < CANDIDATE_COUNT && ms[j] == Success(measure)
    ensures stop ==> SecondPass(ps, ms, j, result) == Success(next)
    ensures !stop ==> SecondPass(ps, ms, j, result) == SecondPass(ps, ms, j + 1, next)
  {
    var t := TupletCandidate(j);
    next, stop := result, false;
    if measure.Some? && !(result.Some? && result.value.measure < measure.value) {
      next := Some(Candidate(measure.value, t));
      stop := t.Some? && UsesTuplet(ps, t.value);
    }
  }

  /** The second pass: no tuplet, then every tuplet in array order. */
  method FindTupletCandidate(ps: seq<Position>, offsets: seq<real>) returns (r: Result<Option<Candidate>, Error>)
    requires offsets == ScaledOffsets(ps)
    ensures r == SecondPass(ps, TupletMeasures(ps), 0, None)
  {
    ghost var ms := TupletMeasures(ps);
    var result: Option<Candidate> := None;
    var j := 0;
    while j < CANDIDATE_COUNT
      invariant 0 <= j <= CANDIDATE_COUNT
      invariant SecondPass(ps, ms, 0, None) == SecondPass(ps, ms, j, result)
    {
      var measure :- FindTupletMeasure(ps, offsets, TupletCandidate(j));
      var stop;
      result, stop := KeepCandidate(ps, ms, j, result, measure);
      if stop {
        return Success(result);
      }
      j := j + 1;
    }
    return Success(result);
  }

  /** findCommonMeasure, as its own loops run it. */
  method FindCommonMeasure(ps: seq<Position>) returns (r: Result<Option<Candidate>, Error>)
    ensures r == CommonMeasureOf(ps)
  {
    var offsets := ScaledOffsets(ps);
    if |offsets| == 0 {
      return Success(None);
    }
    var plain := FindPlainMeasure(offsets);
    if plain.Some? {
      return Success(Some(Candidate(plain.value, None)));
    }
    r := FindTupletCandidate(ps, offsets);
  }
}
