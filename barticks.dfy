/**
 * The editor's parts and ticks: createParts cuts a bar into parts, gives each
 * part a subdivision and a tuplet (taken from the earlier parts when there
 * are some, read off the part's notes otherwise), and lays out one tick per
 * slot of that grid, each holding the line map of the notes at its instant.
 */
module BarTicks {
  import opened Wrappers
  import opened NotedTypes
  import opened Positions
  import opened BarParts
  import opened BarLines

  /** One slot of a part's grid and the notes drawn in it. */
  datatype Tick = Tick(position: Position, noteMap: map<Line, Entry>)

  /** A part as createParts returns it; its hash is not part of this model. */
  datatype Part = Part(index: nat, measure: Measure, tuplet: Option<Tuplet>, ticks: seq<Tick>)

  // ---------------------------------------------------------- specification

  /** The number of iterations of `for (j = 0; j < x; j++)`: the least natural number not below x. */
  function CeilNat(x: real): nat {
    if x <= 0.0 then 0
    else if x.Floor as real == x then x.Floor
    else x.Floor + 1
  }

  lemma CeilNatCounts(x: real, j: nat)
    ensures j < CeilNat(x) <==> (j as real) < x
  {
  }

  /** The notes at the instant of pos, in order. */
  function TickNotes(ns: seq<Note>, pos: Position): (r: seq<Note>)
    ensures |r| <= |ns|
  {
    if |ns| == 0 then []
    else
      var n := ns[|ns| - 1];
      TickNotes(ns[..|ns| - 1], pos) + (if ComparePositions(n.position, pos) == 0.0 then [n] else [])
  }

  lemma {:induction false} TickNotesMembers(ns: seq<Note>, pos: Position)
    ensures forall n :: n in TickNotes(ns, pos) <==> n in ns && ToDecimal(n.position) == ToDecimal(pos)
    decreases |ns|
  {
    if |ns| > 0 {
      TickNotesMembers(ns[..|ns| - 1], pos);
      assert ns == ns[..|ns| - 1] + [ns[|ns| - 1]];
    }
  }

  /** The position of tick j: j ticks after the part's first. */
  function TickPosition(templ: Position, j: nat): Position
    requires templ.RegularPos?
  {
    templ.(offset := templ.offset + j)
  }

  function TickAt(ns: seq<Note>, templ: Position, j: nat): Tick
    requires templ.RegularPos?
  {
    var pos := TickPosition(templ, j);
    Tick(pos, NoteMapOf(TickNotes(ns, pos)))
  }

  /** The first k ticks of a part whose first tick is at templ. */
  function TicksUpTo(ns: seq<Note>, templ: Position, k: nat): (r: seq<Tick>)
    requires templ.RegularPos?
    ensures |r| == k
    ensures forall j :: 0 <= j < k ==> r[j] == TickAt(ns, templ, j)
  {
    if k == 0 then [] else TicksUpTo(ns, templ, k - 1) + [TickAt(ns, templ, k - 1)]
  }

  /** The subdivision of part i: the earlier part's, or the largest among its notes and DEFAULT_MEASURE. */
  function PartMeasure(partNotes: seq<Note>, prev: seq<Part>, i: nat): Measure {
    if i < |prev| then prev[i].measure else MaxMeasure(partNotes)
  }

  /** The tuplet of part i: the earlier part's, or its first note's that has one; dropped when it does not fit. */
  function PartTuplet(meter: Meter, partNotes: seq<Note>, prev: seq<Part>, i: nat): Option<Tuplet> {
    FittingTuplet(meter, PartMeasure(partNotes, prev, i), if i < |prev| then prev[i].tuplet else FirstTuplet(partNotes))
  }

  /**
   * The start of part i, i parts of beats into the bar on the meter's grid,
   * moved to the part's own grid. PartStart shows the offset equals the
   * code's i * calculatePartSize(meter, meter[1]).
   */
  function TemplatePosition(bar: nat, meter: Meter, i: nat, m: Measure, t: Option<Tuplet>): Result<Position, Error> {
    ModifyPosition(RegularPos(bar, PartOffset(meter, i), meter.measure, None), m, t)
  }

  /** The offset of part i on the meter's grid. */
  function PartOffset(meter: Meter, i: nat): nat {
    i * BeatsPerPart(meter)
  }

  /** The length of a part in ticks of its own grid. */
  function TickSpan(meter: Meter, m: Measure, t: Option<Tuplet>): real {
    PartSize(meter, m) * TupletMultiplier(t)
  }

  /** The number of ticks of a part: its length in ticks, rounded up. */
  function PartTickCount(meter: Meter, m: Measure, t: Option<Tuplet>): nat {
    CeilNat(TickSpan(meter, m, t))
  }

  /** Part i of the bar, or the error moving its start to its grid throws. */
  function PartAt(notes: seq<Note>, bar: nat, meter: Meter, prev: seq<Part>, i: nat): Result<Part, Error> {
    var partNotes := PartNotes(notes, bar, meter, i);
    var m := PartMeasure(partNotes, prev, i);
    var t := PartTuplet(meter, partNotes, prev, i);
    var templ :- TemplatePosition(bar, meter, i, m, t);
    Success(Part(i, m, t, TicksUpTo(partNotes, templ, PartTickCount(meter, m, t))))
  }

  /** The results of parts 0 to k - 1, in order. */
  function PartResults(notes: seq<Note>, bar: nat, meter: Meter, prev: seq<Part>, k: nat): (rs: seq<Result<Part, Error>>)
    ensures |rs| == k
  {
    if k == 0 then [] else PartResults(notes, bar, meter, prev, k - 1) + [PartAt(notes, bar, meter, prev, k - 1)]
  }

  /** The values of the results in order, or the first error among them: what a loop that throws returns. */
  function Collect<T, E>(rs: seq<Result<T, E>>): Result<seq<T>, E> {
    if |rs| == 0 then Success([])
    else
      var ps :- Collect(rs[..|rs| - 1]);
      var p :- rs[|rs| - 1];
      Success(ps + [p])
  }

  /** The first k parts, or the first error. */
  function PartsUpTo(notes: seq<Note>, bar: nat, meter: Meter, prev: seq<Part>, k: nat): Result<seq<Part>, Error> {
    Collect(PartResults(notes, bar, meter, prev, k))
  }

  // ------------------------------------------------------------------ method

  /** createParts: the parts of one bar, part by part and tick by tick. */
  method CreateParts(notes: seq<Note>, bar: nat, meter: Meter, prev: seq<Part>) returns (r: Result<seq<Part>, Error>)
    ensures r == PartsUpTo(notes, bar, meter, prev, PartsCount(meter))
  {
    var result: seq<Part> := [];
    var partsCount := if meter.beats % 3 == 0 then meter.beats / 3 else meter.beats;
    for i := 0 to partsCount
      invariant PartsUpTo(notes, bar, meter, prev, i) == Success(result)
    {
      var partNotes := PartNotes(notes, bar, meter, i);
      var measure := if i < |prev| then prev[i].measure else MaxMeasure(partNotes);
      var tuplet := if i < |prev| then prev[i].tuplet else FirstTuplet(partNotes);
      if tuplet.Some? && tuplet.value.q as real > PartSize(meter, measure) {
        tuplet := None;
      }
      var templatePosition := ModifyPosition(RegularPos(bar, PartOffset(meter, i), meter.measure, None), measure, tuplet);
      PartAtFrom(notes, bar, meter, prev, i, measure, tuplet, templatePosition);
      PartsStep(notes, bar, meter, prev, i, result);
      if templatePosition.Failure? {
        FailureStays(notes, bar, meter, prev, i + 1, partsCount);
        return Failure(templatePosition.error);
      }
      var tickCount := TickSpan(meter, measure, tuplet);
      var ticks := BuildTicks(partNotes, templatePosition.value, tickCount);
      assert PartAt(notes, bar, meter, prev, i) == Success(Part(i, measure, tuplet, ticks));
      result := result + [Part(i, measure, tuplet, ticks)];
    }
    r := Success(result);
  }

  /** PartAt from the subdivision, tuplet and start position the method computes. */
  lemma PartAtFrom(notes: seq<Note>, bar: nat, meter: Meter, prev: seq<Part>, i: nat, m: Measure, t: Option<Tuplet>, tp: Result<Position, Error>)
    requires m == PartMeasure(PartNotes(notes, bar, meter, i), prev, i)
    requires t == PartTuplet(meter, PartNotes(notes, bar, meter, i), prev, i)
    requires tp == TemplatePosition(bar, meter, i, m, t)
    ensures tp.Failure? ==> PartAt(notes, bar, meter, prev, i) == Failure(tp.error)
    ensures tp.Success? ==> tp.value.RegularPos?
    ensures tp.Success? ==>
              PartAt(notes, bar, meter, prev, i) == Success(Part(i, m, t, TicksUpTo(PartNotes(notes, bar, meter, i), tp.value, PartTickCount(meter, m, t))))
  {
  }

  /** The ticks of a part whose first tick is at templ: one per slot of its grid, each with the line map of its notes. */
  method BuildTicks(partNotes: seq<Note>, templ: Position, tickCount: real) returns (ticks: seq<Tick>)
    requires templ.RegularPos?
    ensures ticks == TicksUpTo(partNotes, templ, CeilNat(tickCount))
  {
    ticks := [];
    var j: nat := 0;
    while (j as real) < tickCount
      invariant j <= CeilNat(tickCount)
      invariant ticks == TicksUpTo(partNotes, templ, j)
      decreases CeilNat(tickCount) - j
    {
      CeilNatCounts(tickCount, j);
      var position := templ.(offset := templ.offset + j);
      var tickNotes := TickNotes(partNotes, position);
      var noteMap := FillNoteMap(tickNotes);
      ticks := ticks + [Tick(position, noteMap)];
      j := j + 1;
    }
    CeilNatCounts(tickCount, j);
  }

  lemma PartsStep(notes: seq<Note>, bar: nat, meter: Meter, prev: seq<Part>, i: nat, ps: seq<Part>)
    requires PartsUpTo(notes, bar, meter, prev, i) == Success(ps)
    ensures PartAt(notes, bar, meter, prev, i).Success? ==>
              PartsUpTo(notes, bar, meter, prev, i + 1) == Success(ps + [PartAt(notes, bar, meter, prev, i).value])
    ensures PartAt(notes, bar, meter, prev, i).Failure? ==>
              PartsUpTo(notes, bar, meter, prev, i + 1) == Failure(PartAt(notes, bar, meter, prev, i).error)
  {
    CollectStep(PartResults(notes, bar, meter, prev, i), PartAt(notes, bar, meter, prev, i));
  }

  lemma CollectStep<T, E>(rs: seq<Result<T, E>>, r: Result<T, E>)
    ensures Collect(rs).Success? && r.Success? ==> Collect(rs + [r]) == Success(Collect(rs).value + [r.value])
    ensures Collect(rs).Success? && r.Failure? ==> Collect(rs + [r]) == Failure(r.error)
    ensures Collect(rs).Failure? ==> Collect(rs + [r]) == Failure(Collect(rs).error)
  {
    assert (rs + [r])[..|rs|] == rs;
  }

  /** Once a part fails, so do all the parts up to any later one, with the same error. */
  lemma FailureStays(notes: seq<Note>, bar: nat, meter: Meter, prev: seq<Part>, k: nat, k': nat)
    requires k <= k' && PartsUpTo(notes, bar, meter, prev, k).Failure?
    ensures PartsUpTo(notes, bar, meter, prev, k') == PartsUpTo(notes, bar, meter, prev, k)
  {
    PartResultsPrefix(notes, bar, meter, prev, k, k');
    CollectFailureStays(PartResults(notes, bar, meter, prev, k), PartResults(notes, bar, meter, prev, k'));
  }

  lemma PartResultsPrefix(notes: seq<Note>, bar: nat, meter: Meter, prev: seq<Part>, k: nat, k': nat)
    requires k <= k'
    ensures PartResults(notes, bar, meter, prev, k) == PartResults(notes, bar, meter, prev, k')[..k]
  {
    PartResultsAt(notes, bar, meter, prev, k);
    PartResultsAt(notes, bar, meter, prev, k');
  }

  /** Result i of the first k is the result of part i. */
  lemma {:induction false} PartResultsAt(notes: seq<Note>, bar: nat, meter: Meter, prev: seq<Part>, k: nat)
    ensures forall i :: 0 <= i < k ==> PartResults(notes, bar, meter, prev, k)[i] == PartAt(notes, bar, meter, prev, i)
    decreases k
  {
    if k > 0 {
      PartResultsAt(notes, bar, meter, prev, k - 1);
      var rs := PartResults(notes, bar, meter, prev, k - 1);
      assert PartResults(notes, bar, meter, prev, k) == rs + [PartAt(notes, bar, meter, prev, k - 1)];
      forall i | 0 <= i < k
        ensures PartResults(notes, bar, meter, prev, k)[i] == PartAt(notes, bar, meter, prev, i)
      {
        if i < k - 1 {
          assert PartResults(notes, bar, meter, prev, k)[i] == rs[i];
        }
      }
    }
  }

  lemma {:induction false} CollectFailureStays<T, E>(rs: seq<Result<T, E>>, rs': seq<Result<T, E>>)
    requires |rs| <= |rs'| && rs == rs'[..|rs|] && Collect(rs).Failure?
    ensures Collect(rs') == Collect(rs)
    decreases |rs'|
  {
    if |rs| < |rs'| {
      var init := rs'[..|rs'| - 1];
      assert init[..|rs|] == rs;
      CollectFailureStays(rs, init);
      CollectStep(init, rs'[|rs'| - 1]);
      assert init + [rs'[|rs'| - 1]] == rs';
    } else {
      assert rs' == rs;
    }
  }

  /** The values of the results are collected exactly when none fails, and then in order. */
  lemma {:induction false} CollectAll<T, E>(rs: seq<Result<T, E>>)
    ensures Collect(rs).Success? <==> forall i :: 0 <= i < |rs| ==> rs[i].Success?
    ensures Collect(rs).Success? ==> |Collect(rs).value| == |rs| && forall i :: 0 <= i < |rs| ==> Collect(rs).value[i] == rs[i].value
    decreases |rs|
  {
    if |rs| > 0 {
      var init := rs[..|rs| - 1];
      CollectAll(init);
      CollectStep(init, rs[|rs| - 1]);
      assert init + [rs[|rs| - 1]] == rs;
    }
  }

}
