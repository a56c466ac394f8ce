/**
 * Position arithmetic: the decimal value of a position, the ordering of
 * positions, and rescaling a position to another subdivision or tuplet.
 */
module Positions {
  import opened Wrappers
  import opened NotedTypes

  predicate IsInteger(x: real) {
    x.Floor as real == x
  }

  /** p/q for a tuplet, 1 without one. */
  function TupletMultiplier(t: Option<Tuplet>): (r: real)
    ensures r > 0.0
    ensures t.None? ==> r == 1.0
    ensures t.Some? ==> r * t.value.q as real == t.value.p as real
  {
    match t
    case None => 1.0
    case Some(tu) =>
      tu.p as real / tu.q as real
  }

  /**
   * measure * p/q: the number of ticks in a whole note. Kept over plain numbers
   * so that the arithmetic lemmas below do not carry the subset types.
   */
  function TickLength(measure: int, mu: real): (r: real)
    requires measure > 0 && mu > 0.0
    ensures r > 0.0
  {
    measure as real * mu
  }

  /** createDecimalPosition: the bar and the fraction of a whole note into the bar. */
  function ToDecimal(p: Position): (d: Decimal)
    ensures d.bar == p.bar
    ensures d.frac >= 0.0
    ensures p.BarPos? ==> d.frac == 0.0
  {
    match p
    case BarPos(bar) => Decimal(bar, 0.0)
    case RegularPos(bar, offset, measure, tuplet) =>
      Decimal(bar, offset as real / TickLength(measure, TupletMultiplier(tuplet)))
  }

  /** The fraction of a regular position counts its offset in ticks of 1/(measure * p/q). */
  lemma DecimalCountsTicks(p: Position)
    requires p.RegularPos?
    ensures ToDecimal(p).frac * TickLength(p.measure, TupletMultiplier(p.tuplet)) == p.offset as real
  {
    var l := TickLength(p.measure, TupletMultiplier(p.tuplet));
    assert ToDecimal(p).frac == p.offset as real / l;
  }

  /** The strict lexicographic order on (bar, fraction). */
  predicate DecimalBefore(a: Decimal, b: Decimal) {
    a.bar < b.bar || (a.bar == b.bar && a.frac < b.frac)
  }

  /** compareDecimalPositions: bars first, then fractions. */
  function CompareDecimal(a: Decimal, b: Decimal): (r: real)
    ensures r < 0.0 <==> DecimalBefore(a, b)
    ensures r > 0.0 <==> DecimalBefore(b, a)
    ensures r == 0.0 <==> a == b
  {
    if a.bar != b.bar then (a.bar - b.bar) as real else a.frac - b.frac
  }

  /** comparePositions: the order of the decimal values. */
  function ComparePositions(a: Position, b: Position): (r: real)
    ensures r == 0.0 <==> ToDecimal(a) == ToDecimal(b)
    ensures r < 0.0 <==> DecimalBefore(ToDecimal(a), ToDecimal(b))
    ensures r > 0.0 <==> DecimalBefore(ToDecimal(b), ToDecimal(a))
  {
    CompareDecimal(ToDecimal(a), ToDecimal(b))
  }

  /** Positions compare equal when they denote the same instant of a bar. */
  lemma BarStartEqualsZeroOffset(bar: nat, measure: Measure, t: Option<Tuplet>)
    ensures ComparePositions(BarPos(bar), RegularPos(bar, 0, measure, t)) == 0.0
  {
    var l := TickLength(measure, TupletMultiplier(t));
    assert ToDecimal(RegularPos(bar, 0, measure, t)).frac == 0.0 / l;
  }

  /** The comparison is a total preorder: antisymmetric in sign and transitive. */
  lemma CompareDecimalIsOrder(a: Decimal, b: Decimal, c: Decimal)
    ensures CompareDecimal(a, b) == -CompareDecimal(b, a)
    ensures CompareDecimal(a, b) <= 0.0 && CompareDecimal(b, c) <= 0.0 ==> CompareDecimal(a, c) <= 0.0
  {
  }

  /**
   * Within one subdivision and tuplet, positions are ordered by bar and then
   * by offset.
   */
  lemma SameGridOrder(a: nat, oa: nat, b: nat, ob: nat, m: Measure, t: Option<Tuplet>)
    ensures ComparePositions(RegularPos(a, oa, m, t), RegularPos(b, ob, m, t)) < 0.0
        <==> a < b || (a == b && oa < ob)
  {
    DivisionIsMonotone(oa as real, ob as real, TickLength(m, TupletMultiplier(t)));
  }

  lemma DivisionIsMonotone(x: real, y: real, k: real)
    requires k > 0.0
    ensures x < y <==> x / k < y / k
  {
    if x < y {
      assert y / k - x / k == (y - x) / k;
    } else {
      assert x / k - y / k == (x - y) / k;
    }
  }

  /** Scaling offset and tick length by the same measure ratio keeps the fraction. */
  lemma RescaleMeasure(offset: real, measure: real, m: real, mu: real, scaled: real, l0: real, l1: real)
    requires measure > 0.0 && m > 0.0 && mu > 0.0
    requires scaled == offset * m / measure && l0 == measure * mu && l1 == m * mu
    ensures scaled / l1 == offset / l0
  {
  }

  /** Scaling offset and tick length by the same tuplet ratio keeps the fraction. */
  lemma RescaleTuplet(offset: real, measure: real, mu0: real, mu1: real, scaled: real, l0: real, l1: real)
    requires measure > 0.0 && mu0 > 0.0 && mu1 > 0.0
    requires scaled == offset * mu1 / mu0 && l0 == measure * mu0 && l1 == measure * mu1
    ensures scaled / l1 == offset / l0
  {
  }

  /** offset * num / den, the rescaled offset before the integrality check. */
  function Scale(offset: nat, num: real, den: real): (r: real)
    requires num > 0.0 && den > 0.0
    ensures r >= 0.0
  {
    offset as real * num / den
  }

  lemma FloorOfInteger(x: real)
    requires x >= 0.0 && IsInteger(x)
    ensures (x.Floor as nat) as real == x
  {
  }

  lemma MeasureScaleKeepsFraction(offset: nat, n: nat, m0: int, m1: int, mu: real)
    requires m0 > 0 && m1 > 0 && mu > 0.0
    requires n as real == Scale(offset, m1 as real, m0 as real)
    ensures n as real / TickLength(m1, mu) == offset as real / TickLength(m0, mu)
  {
    RescaleMeasure(offset as real, m0 as real, m1 as real, mu, n as real, TickLength(m0, mu), TickLength(m1, mu));
  }

  lemma TupletScaleKeepsFraction(offset: nat, n: nat, m: int, mu0: real, mu1: real)
    requires m > 0 && mu0 > 0.0 && mu1 > 0.0
    requires n as real == Scale(offset, mu1, mu0)
    ensures n as real / TickLength(m, mu1) == offset as real / TickLength(m, mu0)
  {
    RescaleTuplet(offset as real, m as real, mu0, mu1, n as real, TickLength(m, mu0), TickLength(m, mu1));
  }

  lemma MeasureChangeKeepsDecimal(p: Position, m: Measure)
    requires p.RegularPos?
    requires IsInteger(Scale(p.offset, m as real, p.measure as real))
    ensures ToDecimal(RegularPos(p.bar, Scale(p.offset, m as real, p.measure as real).Floor as nat, m, p.tuplet))
         == ToDecimal(p)
  {
    var scaled := Scale(p.offset, m as real, p.measure as real);
    FloorOfInteger(scaled);
    MeasureScaleKeepsFraction(p.offset, scaled.Floor as nat, p.measure, m, TupletMultiplier(p.tuplet));
  }

  lemma TupletChangeKeepsDecimal(p: Position, t: Option<Tuplet>)
    requires p.RegularPos?
    requires IsInteger(Scale(p.offset, TupletMultiplier(t), TupletMultiplier(p.tuplet)))
    ensures ToDecimal(RegularPos(p.bar, Scale(p.offset, TupletMultiplier(t), TupletMultiplier(p.tuplet)).Floor as nat,
                                 p.measure, t))
         == ToDecimal(p)
  {
    var scaled := Scale(p.offset, TupletMultiplier(t), TupletMultiplier(p.tuplet));
    FloorOfInteger(scaled);
    TupletScaleKeepsFraction(p.offset, scaled.Floor as nat, p.measure, TupletMultiplier(p.tuplet), TupletMultiplier(t));
  }

  lemma ScaleByOne(offset: nat, x: real)
    requires x > 0.0
    ensures Scale(offset, x, x) == offset as real
  {
  }

  /** changePositionMeasure. */
  function ChangeMeasure(p: Position, m: Measure): (r: Result<Position, Error>)
    ensures p.BarPos? ==> r == Success(BarPos(p.bar))
    ensures p.RegularPos? ==>
      (r.Success? <==> IsInteger(Scale(p.offset, m as real, p.measure as real)))
    ensures p.RegularPos? && r.Failure? ==> r.error == MeasureNotChangeable(p, m)
    ensures r.Success? ==> ToDecimal(r.value) == ToDecimal(p)
    ensures r.Success? && p.RegularPos? ==>
      r.value.RegularPos? && r.value.bar == p.bar && r.value.measure == m && r.value.tuplet == p.tuplet
  {
    match p
    case BarPos(bar) => Success(BarPos(bar))
    case RegularPos(bar, offset, measure, tuplet) =>
      if measure == m then
        ScaleByOne(offset, m as real);
        Success(p)
      else
        var scaled := Scale(offset, m as real, measure as real);
        if !IsInteger(scaled) then Failure(MeasureNotChangeable(p, m))
        else
          var result := RegularPos(bar, scaled.Floor as nat, m, tuplet);
          assert ToDecimal(result).frac == ToDecimal(p).frac by {
            MeasureChangeKeepsDecimal(p, m);
          }
          // The code re-checks the decimal value; exact arithmetic never takes this branch.
          if ToDecimal(p).frac != ToDecimal(result).frac then Failure(MeasureChangeMismatch(p, m))
          else Success(result)
  }

  /** changePositionTuplet. */
  function ChangeTuplet(p: Position, t: Option<Tuplet>): (r: Result<Position, Error>)
    ensures p.BarPos? ==> r == Success(BarPos(p.bar))
    ensures p.RegularPos? ==>
      (r.Success? <==> IsInteger(Scale(p.offset, TupletMultiplier(t), TupletMultiplier(p.tuplet))))
    ensures p.RegularPos? && r.Failure? ==> r.error == TupletNotChangeable(p, t)
    ensures r.Success? ==> ToDecimal(r.value) == ToDecimal(p)
    ensures r.Success? && p.RegularPos? ==>
      r.value.RegularPos? && r.value.bar == p.bar && r.value.measure == p.measure && r.value.tuplet == t
  {
    match p
    case BarPos(bar) => Success(BarPos(bar))
    case RegularPos(bar, offset, measure, tuplet) =>
      if tuplet == t then
        ScaleByOne(offset, TupletMultiplier(t));
        Success(p)
      else
        var scaled := Scale(offset, TupletMultiplier(t), TupletMultiplier(tuplet));
        if !IsInteger(scaled) then Failure(TupletNotChangeable(p, t))
        else
          var result := RegularPos(bar, scaled.Floor as nat, measure, t);
          assert ToDecimal(result).frac == ToDecimal(p).frac by {
            TupletChangeKeepsDecimal(p, t);
          }
          // The code re-checks the decimal value; exact arithmetic never takes this branch.
          if ToDecimal(p).frac != ToDecimal(result).frac then Failure(TupletChangeMismatch(p, t))
          else Success(result)
  }

  /**
   * modifyPosition: without a requested tuplet the tuplet is removed first and
   * the measure changed second; otherwise the measure is changed first.
   */
  function ModifyPosition(p: Position, m: Measure, t: Option<Tuplet>): (r: Result<Position, Error>)
    ensures p.BarPos? ==> r == Success(BarPos(p.bar))
    ensures r.Success? ==> ToDecimal(r.value) == ToDecimal(p)
    ensures r.Success? && p.RegularPos? ==>
      r.value.RegularPos? && r.value.bar == p.bar && r.value.measure == m && r.value.tuplet == t
  {
    if t.None? then
      var q :- ChangeTuplet(p, None);
      ChangeMeasure(q, m)
    else
      var q :- ChangeMeasure(p, m);
      ChangeTuplet(q, t)
  }

  /** A decimal lies on the grid of `measure * mu` ticks per whole note. */
  predicate OnGrid(d: Decimal, measure: int, mu: real)
    requires measure > 0 && mu > 0.0
  {
    IsInteger(TickCount(d.frac, measure, mu))
  }

  /** A fraction of a whole note counted in ticks of a grid. */
  function TickCount(frac: real, measure: int, mu: real): real
    requires measure > 0 && mu > 0.0
  {
    frac * TickLength(measure, mu)
  }

  /** The rescaled offset is the fraction counted in ticks of the new grid. */
  lemma ScaleCountsNewTicks(offset: nat, m0: int, mu0: real, m1: int, mu1: real)
    requires m0 > 0 && m1 > 0 && mu0 > 0.0 && mu1 > 0.0
    ensures Scale(offset, m1 as real * mu1, m0 as real * mu0)
         == TickCount(offset as real / TickLength(m0, mu0), m1, mu1)
  {
  }

  lemma ScaleMeasureAsTicks(offset: nat, m0: int, m1: int, mu: real)
    requires m0 > 0 && m1 > 0 && mu > 0.0
    ensures Scale(offset, m1 as real, m0 as real) == TickCount(offset as real / TickLength(m0, mu), m1, mu)
  {
    ScaleCountsNewTicks(offset, m0, mu, m1, mu);
    assert Scale(offset, m1 as real * mu, m0 as real * mu) == Scale(offset, m1 as real, m0 as real);
  }

  lemma ScaleTupletAsTicks(offset: nat, m: int, mu0: real, mu1: real)
    requires m > 0 && mu0 > 0.0 && mu1 > 0.0
    ensures Scale(offset, mu1, mu0) == TickCount(offset as real / TickLength(m, mu0), m, mu1)
  {
    ScaleCountsNewTicks(offset, m, mu0, m, mu1);
    assert Scale(offset, m as real * mu1, m as real * mu0) == Scale(offset, mu1, mu0);
  }

  /** changePositionMeasure succeeds exactly when the instant lies on the new subdivision's grid. */
  lemma ChangeMeasureOnGrid(p: Position, m: Measure)
    requires p.RegularPos?
    ensures ChangeMeasure(p, m).Success? <==> OnGrid(ToDecimal(p), m, TupletMultiplier(p.tuplet))
  {
    ScaleMeasureAsTicks(p.offset, p.measure, m, TupletMultiplier(p.tuplet));
  }

  /** changePositionTuplet succeeds exactly when the instant lies on the new tuplet's grid. */
  lemma ChangeTupletOnGrid(p: Position, t: Option<Tuplet>)
    requires p.RegularPos?
    ensures ChangeTuplet(p, t).Success? <==> OnGrid(ToDecimal(p), p.measure, TupletMultiplier(t))
  {
    ScaleTupletAsTicks(p.offset, p.measure, TupletMultiplier(p.tuplet), TupletMultiplier(t));
  }

  /**
   * modifyPosition succeeds exactly when the instant lies on the intermediate
   * grid (the old measure without tuplet, or the new measure with the old
   * tuplet) and on the requested grid.
   */
  lemma ModifyPositionOnGrid(p: Position, m: Measure, t: Option<Tuplet>)
    requires p.RegularPos?
    ensures var d := ToDecimal(p);
      ModifyPosition(p, m, t).Success? <==>
        (if t.None? then OnGrid(d, p.measure, 1.0) else OnGrid(d, m, TupletMultiplier(p.tuplet)))
        && OnGrid(d, m, TupletMultiplier(t))
  {
    if t.None? {
      ChangeTupletOnGrid(p, None);
      var q := ChangeTuplet(p, None);
      if q.Success? {
        ChangeMeasureOnGrid(q.value, m);
      }
    } else {
      ChangeMeasureOnGrid(p, m);
      var q := ChangeMeasure(p, m);
      if q.Success? {
        ChangeTupletOnGrid(q.value, t);
      }
    }
  }

  /**
   * The order of the two steps matters: 0.7/8*7:8 is the instant 1 (one whole
   * note), which is offset 7 of 4*7:4, yet the measure-first step needs 7*4/8 = 3.5.
   */
  lemma ModifyPositionOrderMatters()
    ensures var p := RegularPos(0, 7, 8, Some(Ratio(7, 8)));
      ToDecimal(p) == ToDecimal(RegularPos(0, 7, 4, Some(Ratio(7, 4))))
      && ModifyPosition(p, 4, Some(Ratio(7, 4))).Failure?
  {
    var p := RegularPos(0, 7, 8, Some(Ratio(7, 8)));
    assert TupletMultiplier(Some(Ratio(7, 8))) == 7.0 / 8.0;
    assert TupletMultiplier(Some(Ratio(7, 4))) == 7.0 / 4.0;
    assert Scale(7, 4.0, 8.0) == 3.5;
    assert !IsInteger(3.5);
  }

  /**
   * A one-step rescale onto the grid of m * mu(t) ticks per whole note: the
   * instant counted in ticks of that grid, with no intermediate grid. It
   * fails exactly when the instant is off the requested grid.
   */
  function MoveToGrid(p: Position, m: Measure, t: Option<Tuplet>): (r: Result<Position, Error>)
    ensures p.BarPos? ==> r == Success(BarPos(p.bar))
    ensures p.RegularPos? ==> (r.Success? <==> OnGrid(ToDecimal(p), m, TupletMultiplier(t)))
    ensures p.RegularPos? && r.Failure? ==> r.error == TupletNotChangeable(p, t)
    ensures r.Success? ==> ToDecimal(r.value) == ToDecimal(p)
    ensures r.Success? && p.RegularPos? ==>
      r.value.RegularPos? && r.value.bar == p.bar && r.value.measure == m && r.value.tuplet == t
  {
    match p
    case BarPos(bar) => Success(BarPos(bar))
    case RegularPos(bar, _, _, _) =>
      var k := GridOffset(ToDecimal(p).frac, m, TupletMultiplier(t));
      if k.Some? then Success(RegularPos(bar, k.value, m, t))
      else Failure(TupletNotChangeable(p, t))
  }

  /** The offset of a fraction on a grid of m * mu ticks per whole note, when it is a whole tick. */
  function GridOffset(frac: real, m: int, mu: real): (k: Option<nat>)
    requires frac >= 0.0 && m > 0 && mu > 0.0
    ensures k.Some? <==> IsInteger(TickCount(frac, m, mu))
    ensures k.Some? ==> k.value as real / TickLength(m, mu) == frac
  {
    var n := TickCount(frac, m, mu);
    if IsInteger(n) then Some(n.Floor) else None
  }
}
