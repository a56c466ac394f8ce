/** What findCommonMeasure promises, proved about its specification. */
module CommonMeasureFacts {
  import opened Wrappers
  import opened NotedTypes
  import opened Positions
  import opened Divisors
  import opened CommonMeasure

  /** A plain measure fits the scaled offsets exactly when every position is on its grid. */
  lemma PlainFitIsOnGrid(ps: seq<Position>, m: Measure)
    ensures FitsMeasure(ScaledOffsets(ps), m) <==> AllOnGrid(ps, Candidate(m, None))
  {
    var offsets := ScaledOffsets(ps);
    forall i | 0 <= i < |ps|
      ensures PlainTicks(offsets[i], m) == TickCount(ToDecimal(ps[i]).frac, m, 1.0)
    {
      ScaledTicks(ToDecimal(ps[i]).frac, m);
    }
  }

  lemma ScaledTicks(frac: real, m: int)
    requires m > 0
    ensures PlainTicks(Scaled(frac), m) == TickCount(frac, m, 1.0)
  {
  }

  /** x * p / q is an integer, so x * p is one too. */
  lemma NumeratorIsInteger(x: real, mu: real, p: int, q: int)
    requires q > 0 && mu * q as real == p as real && IsInteger(x * mu)
    ensures IsInteger(Numerator(x, p))
  {
    var n := (x * mu).Floor;
    calc {
      x * p as real;
    ==  x * (mu * q as real);
    ==  (x * mu) * q as real;
    ==  (n * q) as real;
    }
  }

  lemma TupletNumeratorIsInteger(x: real, t: Option<Tuplet>)
    requires IsInteger(TupletTicks(x, t))
    ensures IsInteger(Numerator(x, TupletP(t)))
  {
    assert TupletTicks(x, t) == x * TupletMultiplier(t);
    NumeratorIsInteger(x, TupletMultiplier(t), TupletP(t), TupletQ(t));
  }

  /**
   * The measure 128 * om * q / cd puts a fraction on its tuplet grid whenever
   * cd divides the fraction's numerator frac * 128 * p.
   */
  lemma GridArithmetic(frac: real, p: int, q: int, mu: real, cd: int, om: int, n: int, m: int)
    requires q > 0 && p > 0 && mu > 0.0 && mu * q as real == p as real
    requires cd != 0 && om > 0 && m > 0
    requires Numerator(Scaled(frac), p) == n as real
    requires Divides(cd, n)
    requires m as real == MeasureValue(cd, om, q)
    ensures IsInteger(TickCount(frac, m, mu))
  {
    var k := n / cd;
    assert n == k * cd;
    var mr := m as real;
    assert mr == 128.0 * om as real * q as real / cd as real;
    assert mr * mu == 128.0 * om as real * p as real / cd as real;
    assert frac * (mr * mu) == (frac * 128.0 * p as real) * om as real / cd as real;
    assert frac * (mr * mu) == (k * om) as real;
    assert TickCount(frac, m, mu) == frac * (mr * mu);
    assert ((k * om) as real).Floor == k * om;
  }

  /** One position on the grid of the measure the second pass derives from the gcd cd. */
  lemma PositionOnGrid(frac: real, offset: real, arg: real, t: Option<Tuplet>, cd: int, om: int, m: int)
    requires offset == Scaled(frac) && arg == Numerator(offset, TupletP(t)) && IsInteger(arg)
    requires cd != 0 && Divides(cd, arg.Floor)
    requires om > 0 && m > 0 && m as real == MeasureValue(cd, om, TupletQ(t))
    ensures IsInteger(TickCount(frac, m, TupletMultiplier(t)))
  {
    GridArithmetic(frac, TupletP(t), TupletQ(t), TupletMultiplier(t), cd, om, arg.Floor, m);
  }

  /** Every measure a tuplet yields puts all positions on that tuplet's grid. */
  lemma TupletMeasureOnGrid(ps: seq<Position>, t: Option<Tuplet>)
    ensures TupletMeasure(ps, t).Success? && TupletMeasure(ps, t).value.Some? ==>
              AllOnGrid(ps, Candidate(TupletMeasure(ps, t).value.value, t))
  {
    var offsets := ScaledOffsets(ps);
    var args := Numerators(offsets, TupletP(t));
    var g := Gcd(args);
    if FitsTuplet(offsets, t) && g.Success? && g.value.Some? {
      GcdIsNonZero(args);
      var cd := g.value.value;
      var oms := OffsetMultipliers(ps);
      var m := FirstMeasureValue(cd, oms, TupletQ(t), 0);
      if m.Some? {
        var i :| 0 <= i < |oms| && m.value as real == MeasureValue(cd, oms[i], TupletQ(t));
        forall j | 0 <= j < |ps|
          ensures OnGrid(ToDecimal(ps[j]), m.value, TupletMultiplier(t))
        {
          assert args[j] in args;
          assert Floors(args)[j] in Floors(args);
          PositionOnGrid(ToDecimal(ps[j]).frac, offsets[j], args[j], t, cd, oms[i], m.value);
        }
      }
    }
  }

  /** A tuplet cannot make gcd throw: when it fits, every numerator is an integer. */
  lemma TupletMeasureSucceeds(ps: seq<Position>, t: Option<Tuplet>)
    requires |ps| > 0
    ensures TupletMeasure(ps, t).Success?
  {
    var offsets := ScaledOffsets(ps);
    var args := Numerators(offsets, TupletP(t));
    if FitsTuplet(offsets, t) {
      forall x | x in args ensures IsInteger(x) {
        var i :| 0 <= i < |args| && args[i] == x;
        TupletNumeratorIsInteger(offsets[i], t);
      }
    }
  }

  /** The second pass only ever returns a candidate whose own outcome holds every position. */
  lemma {:induction false} SecondPassOnGrid(ps: seq<Position>, ms: seq<Result<Option<Measure>, Error>>,
                                            k: nat, result: Option<Candidate>)
    requires |ms| == CANDIDATE_COUNT
    requires forall i :: 0 <= i < CANDIDATE_COUNT && ms[i].Success? && ms[i].value.Some? ==>
               AllOnGrid(ps, Candidate(ms[i].value.value, TupletCandidate(i)))
    requires result.Some? ==> AllOnGrid(ps, result.value)
    ensures SecondPass(ps, ms, k, result).Success? && SecondPass(ps, ms, k, result).value.Some? ==>
              AllOnGrid(ps, SecondPass(ps, ms, k, result).value.value)
    decreases CANDIDATE_COUNT - k
  {
    if k < CANDIDATE_COUNT {
      SecondPassOnGrid(ps, ms, k + 1, result);
      if ms[k].Success? && ms[k].value.Some? {
        SecondPassOnGrid(ps, ms, k + 1, Some(Candidate(ms[k].value.value, TupletCandidate(k))));
      }
    }
  }

  /** The second pass throws only when a candidate it reaches throws. */
  lemma {:induction false} SecondPassSucceeds(ps: seq<Position>, ms: seq<Result<Option<Measure>, Error>>,
                                              k: nat, result: Option<Candidate>)
    requires |ms| == CANDIDATE_COUNT
    requires forall i :: 0 <= i < CANDIDATE_COUNT ==> ms[i].Success?
    ensures SecondPass(ps, ms, k, result).Success?
    decreases CANDIDATE_COUNT - k
  {
    if k < CANDIDATE_COUNT {
      SecondPassSucceeds(ps, ms, k + 1, result);
      if ms[k].value.Some? {
        SecondPassSucceeds(ps, ms, k + 1, Some(Candidate(ms[k].value.value, TupletCandidate(k))));
      }
    }
  }

  /**
   * What findCommonMeasure promises: it never throws, answers nothing only for
   * an empty list or when no candidate is found, prefers the smallest plain
   * measure, and whatever it answers holds every position on its grid.
   */
  lemma CommonMeasureIsCommon(ps: seq<Position>)
    ensures CommonMeasureOf(ps).Success?
    ensures |ps| == 0 ==> CommonMeasureOf(ps).value.None?
    ensures CommonMeasureOf(ps).value.Some? ==> AllOnGrid(ps, CommonMeasureOf(ps).value.value)
    ensures forall m: Measure :: AllOnGrid(ps, Candidate(m, None)) && |ps| > 0 ==>
              CommonMeasureOf(ps).value.Some? && CommonMeasureOf(ps).value.value.tuplet.None? &&
              CommonMeasureOf(ps).value.value.measure <= m
  {
    if |ps| > 0 {
      var offsets := ScaledOffsets(ps);
      var plain := FirstPlainMeasure(offsets, 0);
      if plain.Some? {
        PlainFitIsOnGrid(ps, plain.value);
        forall m: Measure | AllOnGrid(ps, Candidate(m, None))
          ensures plain.value <= m
        {
          PlainFitIsOnGrid(ps, m);
          MeasuresArePowersOfTwo();
          var j :| 0 <= j < |MEASURES| && MEASURES[j] == m;
        }
      } else {
        var ms := TupletMeasures(ps);
        forall i | 0 <= i < CANDIDATE_COUNT
          ensures ms[i].Success?
          ensures ms[i].value.Some? ==> AllOnGrid(ps, Candidate(ms[i].value.value, TupletCandidate(i)))
        {
          TupletMeasureSucceeds(ps, TupletCandidate(i));
          TupletMeasureOnGrid(ps, TupletCandidate(i));
        }
        SecondPassSucceeds(ps, ms, 0, None);
        SecondPassOnGrid(ps, ms, 0, None);
        forall m: Measure | AllOnGrid(ps, Candidate(m, None))
          ensures false
        {
          PlainFitIsOnGrid(ps, m);
        }
      }
    }
  }

  /** Eighths at offsets 0, 3 and 6 need no tuplet: measure 8. */
  lemma EighthsNeedMeasureEight()
    ensures CommonMeasureOf([RegularPos(2, 0, 8, None), RegularPos(2, 3, 8, None), RegularPos(2, 6, 8, None)])
         == Success(Some(Candidate(8, None)))
  {
    var ps := [RegularPos(2, 0, 8, None), RegularPos(2, 3, 8, None), RegularPos(2, 6, 8, None)];
    assert ToDecimal(ps[0]).frac == 0.0;
    assert ToDecimal(ps[1]).frac == 0.375;
    assert ToDecimal(ps[2]).frac == 0.75;
    var offsets := ScaledOffsets(ps);
    assert offsets == [0.0, 48.0, 96.0];
    assert !FitsMeasure(offsets, 1) by { assert !IsInteger(PlainTicks(offsets[1], 1)); }
    assert !FitsMeasure(offsets, 2) by { assert !IsInteger(PlainTicks(offsets[1], 2)); }
    assert !FitsMeasure(offsets, 4) by { assert !IsInteger(PlainTicks(offsets[1], 4)); }
    assert FitsMeasure(offsets, 8) by {
      assert PlainTicks(offsets[0], 8) == 0.0;
      assert PlainTicks(offsets[1], 8) == 3.0;
      assert PlainTicks(offsets[2], 8) == 6.0;
    }
    MeasuresArePowersOfTwo();
    var r := FirstPlainMeasure(offsets, 0);
    assert MEASURES[3] == 8;
    assert r.Some?;
    assert r.value == 8;
  }

  /** Sixteenths at offsets 0 and 3 of a 7:4 tuplet. */
  function SeptupletSixteenths(): seq<Position> {
    [RegularPos(0, 0, 16, Some(Ratio(7, 4))), RegularPos(0, 3, 16, Some(Ratio(7, 4)))]
  }

  lemma SeptupletOffsets()
    ensures ScaledOffsets(SeptupletSixteenths()) == [0.0, 96.0 / 7.0]
  {
    var ps := SeptupletSixteenths();
    assert TupletMultiplier(Some(Ratio(7, 4))) == 1.75;
    assert ToDecimal(ps[0]).frac == 0.0;
    assert ToDecimal(ps[1]).frac == 3.0 / 28.0;
  }

  /** No plain measure: 96/7 * m / 128 = 3m/28 is never whole. */
  lemma SeptupletHasNoPlainMeasure()
    ensures FirstPlainMeasure(ScaledOffsets(SeptupletSixteenths()), 0).None?
  {
    var offsets := ScaledOffsets(SeptupletSixteenths());
    SeptupletOffsets();
    forall m: Measure ensures !FitsMeasure(offsets, m) {
      assert !IsInteger(PlainTicks(offsets[1], m));
    }
  }

  /** No candidate before 7:4 puts 96/7 on its grid. */
  lemma SeptupletEarlierCandidatesFail(k: nat)
    requires k < 4
    ensures TupletMeasure(SeptupletSixteenths(), TupletCandidate(k)) == Success(None)
  {
    var offsets := ScaledOffsets(SeptupletSixteenths());
    SeptupletOffsets();
    assert !IsInteger(TupletTicks(offsets[1], TupletCandidate(k)));
  }

  lemma SeptupletFits()
    ensures FitsTuplet(ScaledOffsets(SeptupletSixteenths()), Some(Ratio(7, 4)))
    ensures Numerators(ScaledOffsets(SeptupletSixteenths()), 7) == [0.0, 96.0]
  {
    var t: Option<Tuplet> := Some(Ratio(7, 4));
    var offsets := ScaledOffsets(SeptupletSixteenths());
    SeptupletOffsets();
    assert TupletTicks(offsets[0], t) == 0.0;
    assert TupletTicks(offsets[1], t) == 24.0;
  }

  lemma GcdOfZeroAndNinetySix()
    ensures Gcd([0.0, 96.0]) == Success(Some(96))
  {
    var args := [0.0, 96.0];
    assert Floors(args) == [0, 96];
    GcdIsDividingMember(Gcd(args).value, Floors(args), 96);
  }

  lemma NormalizeZeroThree()
    ensures Normalize([0, 3]) == [3]
  {
    assert [0, 3][1..] == [3];
    assert NonZero([3]) == [3];
    assert Dedupe([3]) == [3];
  }

  lemma OffsetMultipliersOfSeptuplet()
    ensures OffsetMultipliers(SeptupletSixteenths()) == [1, 3]
  {
    assert RawOffsets(SeptupletSixteenths()) == [0, 3];
    NormalizeZeroThree();
  }

  lemma SixteenFromMultiplierThree()
    ensures FirstMeasureValue(96, [1, 3], 4, 0) == Some(16)
  {
    assert MeasureValue(96, 1, 4) == 16.0 / 3.0;
    assert MeasureValue(96, 3, 4) == 16.0;
  }

  /** 7:4: gcd(0, 96) = 96, and the offset multiplier 3 turns it into 16. */
  lemma SeptupletCandidateGivesSixteen()
    ensures TUPLETS[3] == Ratio(7, 4)
    ensures TupletMeasure(SeptupletSixteenths(), Some(Ratio(7, 4))) == Success(Some(16))
  {
    SeptupletFits();
    GcdOfZeroAndNinetySix();
    OffsetMultipliersOfSeptuplet();
    SixteenFromMultiplierThree();
  }

  /** The second pass over the septuplet's outcomes: four misses, then 7:4, which the input uses. */
  lemma SeptupletSecondPass(ms: seq<Result<Option<Measure>, Error>>)
    requires |ms| == CANDIDATE_COUNT
    requires forall k :: 0 <= k < 4 ==> ms[k] == Success(None)
    requires ms[4] == Success(Some(16)) && TUPLETS[3] == Ratio(7, 4)
    ensures SecondPass(SeptupletSixteenths(), ms, 0, None) == Success(Some(Candidate(16, Some(Ratio(7, 4)))))
  {
    var ps := SeptupletSixteenths();
    assert UsesTuplet(ps, Ratio(7, 4)) by { assert ps[0].tuplet == Some(Ratio(7, 4)); }
    assert SecondPass(ps, ms, 4, None) == Success(Some(Candidate(16, Some(Ratio(7, 4)))));
    assert SecondPass(ps, ms, 3, None) == SecondPass(ps, ms, 4, None);
    assert SecondPass(ps, ms, 2, None) == SecondPass(ps, ms, 3, None);
    assert SecondPass(ps, ms, 1, None) == SecondPass(ps, ms, 2, None);
  }

  /** Offsets 0 and 3 of sixteenths in 7:4 need that very tuplet: measure 16, tuplet 7:4. */
  lemma SeptupletSixteenthsKeepTheirGrid()
    ensures CommonMeasureOf(SeptupletSixteenths()) == Success(Some(Candidate(16, Some(Ratio(7, 4)))))
  {
    SeptupletHasNoPlainMeasure();
    var ms := TupletMeasures(SeptupletSixteenths());
    forall k | 0 <= k < 4 ensures ms[k] == Success(None) {
      SeptupletEarlierCandidatesFail(k);
    }
    SeptupletCandidateGivesSixteen();
    SeptupletSecondPass(ms);
  }

  // ------------------------------------------------ the grid modifyPosition misses

  /** Eighths at offsets 0 and 1 of a 7:8 tuplet: the instants 0 and 1/7 of the bar. */
  function SeptupletEighths(): seq<Position> {
    [RegularPos(0, 0, 8, Some(Ratio(7, 8))), RegularPos(0, 1, 8, Some(Ratio(7, 8)))]
  }

  lemma SeptupletEighthsOffsets()
    ensures ScaledOffsets(SeptupletEighths()) == [0.0, 128.0 / 7.0]
  {
    var ps := SeptupletEighths();
    assert TupletMultiplier(Some(Ratio(7, 8))) == 0.875;
    assert ToDecimal(ps[0]).frac == 0.0;
    assert ToDecimal(ps[1]).frac == 1.0 / 7.0;
  }

  /** No plain measure: 128/7 * m / 128 = m/7 is never whole. */
  lemma SeptupletEighthsHaveNoPlainMeasure()
    ensures FirstPlainMeasure(ScaledOffsets(SeptupletEighths()), 0).None?
  {
    var offsets := ScaledOffsets(SeptupletEighths());
    SeptupletEighthsOffsets();
    forall m: Measure ensures !FitsMeasure(offsets, m) {
      assert !IsInteger(PlainTicks(offsets[1], m));
    }
  }

  /** No tuplet, 3:2, 5:4, 6:4 and 5:3 leave 128/7 off their grids. */
  lemma SeptupletEighthsMisses(k: nat)
    requires k < 4 || k == 5
    ensures TupletMeasure(SeptupletEighths(), TupletCandidate(k)) == Success(None)
  {
    var offsets := ScaledOffsets(SeptupletEighths());
    SeptupletEighthsOffsets();
    assert !IsInteger(TupletTicks(offsets[1], TupletCandidate(k)));
  }

  /** 7:4 and 7:8 put 128/7 on their grids, and both give the numerators 0 and 128. */
  lemma SeptupletEighthsFit(t: Tuplet)
    requires t == Ratio(7, 4) || t == Ratio(7, 8)
    ensures FitsTuplet(ScaledOffsets(SeptupletEighths()), Some(t))
    ensures TupletP(Some(t)) == 7
    ensures Numerators(ScaledOffsets(SeptupletEighths()), 7) == [0.0, 128.0]
  {
    var offsets := ScaledOffsets(SeptupletEighths());
    SeptupletEighthsOffsets();
    assert TupletTicks(offsets[0], Some(t)) == 0.0;
    assert TupletTicks(offsets[1], Some(t)) == (if t == Ratio(7, 4) then 32.0 else 16.0);
  }

  lemma GcdOfZeroAndOneTwentyEight()
    ensures Gcd([0.0, 128.0]) == Success(Some(128))
  {
    var args := [0.0, 128.0];
    assert Floors(args) == [0, 128];
    GcdIsDividingMember(Gcd(args).value, Floors(args), 128);
  }

  lemma NormalizeZeroOne()
    ensures Normalize([0, 1]) == [1]
  {
    assert [0, 1][1..] == [1];
    assert NonZero([1]) == [1];
    assert Dedupe([1]) == [1];
  }

  lemma OffsetMultipliersOfEighths()
    ensures OffsetMultipliers(SeptupletEighths()) == [1, 1]
  {
    assert RawOffsets(SeptupletEighths()) == [0, 1];
    NormalizeZeroOne();
  }

  /** With gcd 128 and multiplier 1, q = 4 gives the measure 4 and q = 8 the measure 8. */
  lemma MeasuresFromOneTwentyEight()
    ensures FirstMeasureValue(128, [1, 1], 4, 0) == Some(4)
    ensures FirstMeasureValue(128, [1, 1], 8, 0) == Some(8)
  {
    assert MeasureValue(128, 1, 4) == 4.0;
    assert MeasureValue(128, 1, 8) == 8.0;
  }

  lemma SeptupletEighthsCandidates()
    ensures TUPLETS[3] == Ratio(7, 4) && TUPLETS[5] == Ratio(7, 8)
    ensures TupletMeasure(SeptupletEighths(), Some(Ratio(7, 4))) == Success(Some(4))
    ensures TupletMeasure(SeptupletEighths(), Some(Ratio(7, 8))) == Success(Some(8))
  {
    SeptupletEighthsFit(Ratio(7, 4));
    SeptupletEighthsFit(Ratio(7, 8));
    GcdOfZeroAndOneTwentyEight();
    OffsetMultipliersOfEighths();
    MeasuresFromOneTwentyEight();
  }

  /**
   * The second pass over the eighths' outcomes: 7:4 is kept with measure 4,
   * and 7:8, the tuplet the input uses, is skipped for its larger measure 8.
   */
  lemma SeptupletEighthsSecondPass(ms: seq<Result<Option<Measure>, Error>>)
    requires |ms| == CANDIDATE_COUNT
    requires forall k :: 0 <= k < 4 ==> ms[k] == Success(None)
    requires ms[4] == Success(Some(4)) && ms[5] == Success(None) && ms[6] == Success(Some(8))
    requires TUPLETS[3] == Ratio(7, 4)
    ensures SecondPass(SeptupletEighths(), ms, 0, None) == Success(Some(Candidate(4, Some(Ratio(7, 4)))))
  {
    var ps := SeptupletEighths();
    var c := Some(Candidate(4, Some(Ratio(7, 4))));
    assert !UsesTuplet(ps, Ratio(7, 4)) by {
      forall i | 0 <= i < |ps| ensures ps[i].tuplet != Some(Ratio(7, 4)) {
      }
    }
    assert SecondPass(ps, ms, 6, c) == Success(c);
    assert SecondPass(ps, ms, 5, c) == SecondPass(ps, ms, 6, c);
    assert SecondPass(ps, ms, 4, None) == SecondPass(ps, ms, 5, c);
    assert SecondPass(ps, ms, 3, None) == SecondPass(ps, ms, 4, None);
    assert SecondPass(ps, ms, 2, None) == SecondPass(ps, ms, 3, None);
    assert SecondPass(ps, ms, 1, None) == SecondPass(ps, ms, 2, None);
  }

  /** findCommonMeasure answers 4 * 7:4 for the eighths of 7:8 at offsets 0 and 1. */
  lemma SeptupletEighthsCommonMeasure()
    ensures CommonMeasureOf(SeptupletEighths()) == Success(Some(Candidate(4, Some(Ratio(7, 4)))))
  {
    SeptupletEighthsHaveNoPlainMeasure();
    var ms := TupletMeasures(SeptupletEighths());
    forall k | 0 <= k < 4 ensures ms[k] == Success(None) {
      SeptupletEighthsMisses(k);
    }
    SeptupletEighthsMisses(5);
    SeptupletEighthsCandidates();
    SeptupletEighthsSecondPass(ms);
  }

  /**
   * The grid findCommonMeasure answers is not always reachable through
   * modifyPosition: both eighths lie on the grid of 4 * 7:4, yet
   * modifyPosition changes the measure first, and offset 1 of 8 becomes
   * 1 * 4 / 8 = 0.5, which is no offset.
   */
  lemma CommonGridUnreachable()
    ensures CommonMeasureOf(SeptupletEighths()) == Success(Some(Candidate(4, Some(Ratio(7, 4)))))
    ensures AllOnGrid(SeptupletEighths(), Candidate(4, Some(Ratio(7, 4))))
    ensures ModifyPosition(SeptupletEighths()[1], 4, Some(Ratio(7, 4))).Failure?
  {
    SeptupletEighthsCommonMeasure();
    CommonMeasureIsCommon(SeptupletEighths());
    assert Scale(1, 4.0, 8.0) == 0.5;
    assert !IsInteger(0.5);
  }

  /**
   * Moved in one step, every position reaches the grid findCommonMeasure
   * answers, at the same instant.
   */
  lemma CommonGridIsReachable(ps: seq<Position>, i: nat)
    requires i < |ps|
    requires CommonMeasureOf(ps).Success? && CommonMeasureOf(ps).value.Some?
    ensures var c := CommonMeasureOf(ps).value.value;
      MoveToGrid(ps[i], c.measure, c.tuplet).Success?
      && ToDecimal(MoveToGrid(ps[i], c.measure, c.tuplet).value) == ToDecimal(ps[i])
  {
    CommonMeasureIsCommon(ps);
  }

  /** An eighth of 3:2 and an eighth of 5:4: the fractions 1/12 and 1/10 of a bar. */
  function MixedTuplets(): seq<Position> {
    [RegularPos(0, 1, 8, Some(Ratio(3, 2))), RegularPos(0, 1, 8, Some(Ratio(5, 4)))]
  }

  lemma MixedTupletsOffsets()
    ensures ScaledOffsets(MixedTuplets()) == [32.0 / 3.0, 64.0 / 5.0]
  {
    var ps := MixedTuplets();
    assert ToDecimal(ps[0]).frac == 1.0 / 12.0;
    assert ToDecimal(ps[1]).frac == 1.0 / 10.0;
  }

  /** No plain measure: 32/3 * m / 128 = m/12 is never whole. */
  lemma MixedTupletsHaveNoPlainMeasure()
    ensures FirstPlainMeasure(ScaledOffsets(MixedTuplets()), 0).None?
  {
    var offsets := ScaledOffsets(MixedTuplets());
    MixedTupletsOffsets();
    forall m: Measure ensures !FitsMeasure(offsets, m) {
      assert !IsInteger(PlainTicks(offsets[0], m));
    }
  }

  /**
   * No candidate holds both: 3:2 and 6:4 leave 64/5 off their grids, and no
   * tuplet, 5:4, 7:4, 5:3 and 7:8 leave 32/3 off theirs.
   */
  lemma MixedTupletsMiss(k: nat)
    requires k < CANDIDATE_COUNT
    ensures !FitsTuplet(ScaledOffsets(MixedTuplets()), TupletCandidate(k))
    ensures TupletMeasure(MixedTuplets(), TupletCandidate(k)) == Success(None)
  {
    var offsets := ScaledOffsets(MixedTuplets());
    MixedTupletsOffsets();
    var i := if k == 1 || k == 3 then 1 else 0;
    assert !IsInteger(TupletTicks(offsets[i], TupletCandidate(k)));
  }

  /** A second pass over outcomes that are all empty answers nothing. */
  lemma SecondPassOfMisses(ps: seq<Position>, ms: seq<Result<Option<Measure>, Error>>, k: nat)
    requires |ms| == CANDIDATE_COUNT && k <= CANDIDATE_COUNT
    requires forall j :: k <= j < CANDIDATE_COUNT ==> ms[j] == Success(None)
    ensures SecondPass(ps, ms, k, None) == Success(None)
    decreases CANDIDATE_COUNT - k
  {
    if k < CANDIDATE_COUNT {
      SecondPassOfMisses(ps, ms, k + 1);
    }
  }

  /**
   * findCommonMeasure answers nothing for a non-empty list when no candidate
   * holds every position: the eighths of 3:2 and of 5:4 at offset 1.
   */
  lemma MixedTupletsHaveNoCommonMeasure()
    ensures forall k :: 0 <= k < CANDIDATE_COUNT ==>
              !FitsTuplet(ScaledOffsets(MixedTuplets()), TupletCandidate(k))
    ensures CommonMeasureOf(MixedTuplets()) == Success(None)
  {
    MixedTupletsHaveNoPlainMeasure();
    var ms := TupletMeasures(MixedTuplets());
    forall k | 0 <= k < CANDIDATE_COUNT
      ensures !FitsTuplet(ScaledOffsets(MixedTuplets()), TupletCandidate(k))
      ensures ms[k] == Success(None)
    {
      MixedTupletsMiss(k);
    }
    SecondPassOfMisses(MixedTuplets(), ms, 0);
  }
}
