/**
 * Composition lookups: how many bars a composition spans, and which meter
 * and tempo are in effect at a bar or position.
 */
module Lookups {
  import opened Wrappers
  import opened NotedTypes
  import opened Positions
  import opened Sorting

  /** `reduce((result, x) => Math.max(result, x), 0)` over a list of bars. */
  function MaxBar(bars: seq<nat>): (r: nat)
    ensures forall i :: 0 <= i < |bars| ==> bars[i] <= r
    ensures r == 0 || exists i :: 0 <= i < |bars| && bars[i] == r
  {
    if |bars| == 0 then 0
    else
      var rest := MaxBar(bars[..|bars| - 1]);
      if rest < bars[|bars| - 1] then bars[|bars| - 1] else rest
  }

  function NoteBars(notes: seq<Note>): (r: seq<nat>)
    ensures |r| == |notes| && forall i :: 0 <= i < |notes| ==> r[i] == notes[i].position.bar
  {
    seq(|notes|, i requires 0 <= i < |notes| => notes[i].position.bar)
  }

  function MeterChangeBars(cs: seq<MeterChange>): (r: seq<nat>)
    ensures |r| == |cs| && forall i :: 0 <= i < |cs| ==> r[i] == cs[i].position.bar
  {
    seq(|cs|, i requires 0 <= i < |cs| => cs[i].position.bar)
  }

  function BpmChangeBars(cs: seq<BpmChange>): (r: seq<nat>)
    ensures |r| == |cs| && forall i :: 0 <= i < |cs| ==> r[i] == cs[i].position.bar
  {
    seq(|cs|, i requires 0 <= i < |cs| => cs[i].position.bar)
  }

  /** Some note or change of the composition lies in bar b. */
  predicate ReferencesBar(c: Composition, b: nat) {
    || (exists i :: 0 <= i < |c.notes| && c.notes[i].position.bar == b)
    || (c.meterChanges.Some? && exists i :: 0 <= i < |c.meterChanges.value| && c.meterChanges.value[i].position.bar == b)
    || (c.bpmChanges.Some? && exists i :: 0 <= i < |c.bpmChanges.value| && c.bpmChanges.value[i].position.bar == b)
  }

  /**
   * getBarCountFromComposition: one more than the last bar any note or
   * change refers to, so at least 1.
   */
  function BarCount(c: Composition): (r: nat)
    ensures r >= 1
    ensures forall i :: 0 <= i < |c.notes| ==> c.notes[i].position.bar < r
    ensures c.meterChanges.Some? ==>
              forall i :: 0 <= i < |c.meterChanges.value| ==> c.meterChanges.value[i].position.bar < r
    ensures c.bpmChanges.Some? ==>
              forall i :: 0 <= i < |c.bpmChanges.value| ==> c.bpmChanges.value[i].position.bar < r
    ensures r == 1 || ReferencesBar(c, r - 1)
  {
    var notesLast := MaxBar(NoteBars(c.notes));
    var metersLast := if c.meterChanges.Some? then MaxBar(MeterChangeBars(c.meterChanges.value)) else 0;
    var bpmsLast := if c.bpmChanges.Some? then MaxBar(BpmChangeBars(c.bpmChanges.value)) else 0;
    var last := if notesLast >= metersLast && notesLast >= bpmsLast then notesLast
                else if metersLast >= bpmsLast then metersLast
                else bpmsLast;
    last + 1
  }

  /** The position of a meter change as a decimal, the sort key of the meter lookup. */
  function MeterKey(ch: MeterChange): Decimal {
    ToDecimal(ch.position)
  }

  function BpmKey(ch: BpmChange): Decimal {
    ToDecimal(ch.position)
  }

  function MeterAtOrBefore(bar: nat): MeterChange -> bool {
    (ch: MeterChange) => ch.position.bar <= bar
  }

  function BpmAtOrBefore(bar: nat): BpmChange -> bool {
    (ch: BpmChange) => ch.position.bar <= bar
  }

  /** The meter changes in or before the bar, in list order. */
  function MetersUpTo(c: Composition, bar: nat): seq<MeterChange> {
    if c.meterChanges.None? then [] else Filter(c.meterChanges.value, MeterAtOrBefore(bar))
  }

  /** The tempo changes in or before the bar, in list order: their offsets are not looked at. */
  function BpmsUpTo(c: Composition, bar: nat): seq<BpmChange> {
    if c.bpmChanges.None? then [] else Filter(c.bpmChanges.value, BpmAtOrBefore(bar))
  }

  /** getBarMeterFromComposition: filter, sort by position, pop; the base meter otherwise. */
  function BarMeter(c: Composition, bar: nat): Meter {
    var sorted := Sort(MetersUpTo(c, bar), MeterKey);
    if |sorted| == 0 then c.meter else Last(sorted).meter
  }

  /** getPositionBpmFromComposition: the same chain over tempo changes, by bar only. */
  function PositionBpm(c: Composition, p: Position): real {
    var sorted := Sort(BpmsUpTo(c, p.bar), BpmKey);
    if |sorted| == 0 then c.bpm else Last(sorted).bpm
  }

  /**
   * The meter in effect is the base meter when no change lies at or before
   * the bar, and otherwise that of the latest such change, the last listed
   * among changes in the same bar.
   */
  lemma BarMeterIsLatest(c: Composition, bar: nat)
    ensures |MetersUpTo(c, bar)| == 0 ==> BarMeter(c, bar) == c.meter
    ensures |MetersUpTo(c, bar)| > 0 ==>
              exists j :: IsLatest(MetersUpTo(c, bar), MeterKey, j) && BarMeter(c, bar) == MetersUpTo(c, bar)[j].meter
  {
    if |MetersUpTo(c, bar)| > 0 {
      LastOfSort(MetersUpTo(c, bar), MeterKey);
    }
  }

  /** The latest meter change: no listed change at or before the bar lies in a later bar. */
  lemma BarMeterComesFromLatestBar(c: Composition, bar: nat)
    requires c.meterChanges.Some?
    requires exists i :: 0 <= i < |c.meterChanges.value| && c.meterChanges.value[i].position.bar <= bar
    ensures exists ch :: ch in c.meterChanges.value && ch.position.bar <= bar && BarMeter(c, bar) == ch.meter &&
              forall i :: 0 <= i < |c.meterChanges.value| && c.meterChanges.value[i].position.bar <= bar ==>
                c.meterChanges.value[i].position.bar <= ch.position.bar
  {
    var cs := c.meterChanges.value;
    var ups := MetersUpTo(c, bar);
    var i :| 0 <= i < |cs| && cs[i].position.bar <= bar;
    assert cs[i] in ups;
    BarMeterIsLatest(c, bar);
    var j :| IsLatest(ups, MeterKey, j) && BarMeter(c, bar) == ups[j].meter;
    var ch := ups[j];
    assert ch in ups;
    forall k | 0 <= k < |cs| && cs[k].position.bar <= bar
      ensures cs[k].position.bar <= ch.position.bar
    {
      assert cs[k] in ups;
      var k' :| 0 <= k' < |ups| && ups[k'] == cs[k];
      assert !DecimalBefore(MeterKey(ch), MeterKey(ups[k']));
    }
  }

  /** The tempo in effect is that of the latest change in or before the position's bar. */
  lemma PositionBpmIsLatest(c: Composition, p: Position)
    ensures |BpmsUpTo(c, p.bar)| == 0 ==> PositionBpm(c, p) == c.bpm
    ensures |BpmsUpTo(c, p.bar)| > 0 ==>
              exists j :: IsLatest(BpmsUpTo(c, p.bar), BpmKey, j) && PositionBpm(c, p) == BpmsUpTo(c, p.bar)[j].bpm
  {
    if |BpmsUpTo(c, p.bar)| > 0 {
      LastOfSort(BpmsUpTo(c, p.bar), BpmKey);
    }
  }

  /**
   * Only the bar is compared: at the start of a bar, a tempo change placed
   * later in that bar is already in effect.
   */
  lemma LaterChangeInBarCounts()
    ensures PositionBpm(Composition([], 60.0, Meter(4, 4), Some([BpmChange(120.0, RegularPos(0, 3, 4, None))]), None),
                        BarPos(0)) == 120.0
  {
    var ch := BpmChange(120.0, RegularPos(0, 3, 4, None));
    assert Filter([ch], BpmAtOrBefore(0)) == [ch] by {
      assert [ch][1..] == [];
    }
    assert Sort([ch], BpmKey) == [ch] by {
      assert [ch][..0] == [];
    }
  }
}
