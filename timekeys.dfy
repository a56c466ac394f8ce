/**
 * createTimeKeys: the breakpoints of the map from decimal positions to
 * seconds, built bar by bar from the meters and the tempo changes.
 */
module TimeKeys {
  import opened Wrappers
  import opened NotedTypes
  import opened Positions
  import opened Sorting
  import opened Lookups

  /** A tempo change at its decimal position: the `[DecimalPosition, number]` pairs of the walk. */
  datatype TempoMark = TempoMark(pos: Decimal, bpm: real)

  /**
   * The state of the walk: the keys emitted so far, the tempo changes not yet
   * reached, the tempo in effect, the bar-relative fraction where it took
   * effect, and the time reached.
   */
  datatype Walk = Walk(keys: seq<TimeKey>, marks: seq<TempoMark>, bpm: real, offset: real, time: real)

  /** Seconds taken by `length` whole notes at `bpm` quarter notes per minute. */
  function SegmentTime(bpm: real, length: real): (r: real)
    requires bpm != 0.0
    ensures r == 0.0 <==> length == 0.0
    ensures bpm > 0.0 ==> (r >= 0.0 <==> length >= 0.0)
  {
    var perWhole := 60.0 / bpm * 4.0;
    assert perWhole != 0.0;
    assert bpm > 0.0 ==> perWhole > 0.0;
    perWhole * length
  }

  /** The length of a bar in whole notes. */
  function BarLength(m: Meter): (r: real)
    ensures r >= 0.0
  {
    m.beats as real / m.measure as real
  }

  /**
   * `new Map(meterChanges.map(v => [v.position.bar, v.meter]))`: one entry per
   * bar that has a change, the last listed change of a bar replacing earlier ones.
   */
  function ChangeMap(cs: seq<MeterChange>): (r: map<nat, Meter>)
    ensures forall b :: b in r <==> exists i :: 0 <= i < |cs| && cs[i].position.bar == b
    ensures forall i :: 0 <= i < |cs| && (forall j :: i < j < |cs| ==> cs[j].position.bar != cs[i].position.bar) ==>
              r[cs[i].position.bar] == cs[i].meter
  {
    if |cs| == 0 then map[]
    else
      var rest := ChangeMap(cs[..|cs| - 1]);
      assert forall i :: 0 <= i < |cs| - 1 ==> cs[..|cs| - 1][i] == cs[i];
      rest[cs[|cs| - 1].position.bar := cs[|cs| - 1].meter]
  }

  /** The meter map before filling: the composition's own meter overrides any change in bar 0. */
  function BaseMeters(c: Composition): (r: map<nat, Meter>)
    ensures 0 in r && r[0] == c.meter
    ensures forall b :: b != 0 ==> (b in r <==> c.meterChanges.Some? && b in ChangeMap(c.meterChanges.value))
    ensures forall b :: b != 0 && b in r ==> r[b] == ChangeMap(c.meterChanges.value)[b]
  {
    (if c.meterChanges.Some? then ChangeMap(c.meterChanges.value) else map[])[0 := c.meter]
  }

  /** The filled-in meter of bar i: its own entry, or else that of the bar before. */
  function FilledMeter(m: map<nat, Meter>, i: nat): (r: Meter)
    requires 0 in m
    ensures r in m.Values
  {
    if i in m then m[i] else FilledMeter(m, i - 1)
  }

  function MarkPos(m: TempoMark): Decimal {
    m.pos
  }

  function RawMarks(cs: seq<BpmChange>): (r: seq<TempoMark>)
    ensures |r| == |cs|
    ensures forall k :: 0 <= k < |cs| ==> r[k] == TempoMark(ToDecimal(cs[k].position), cs[k].bpm)
  {
    seq(|cs|, k requires 0 <= k < |cs| => TempoMark(ToDecimal(cs[k].position), cs[k].bpm))
  }

  /** The tempo changes as decimal marks, stably sorted by position. */
  function Marks(c: Composition): (r: seq<TempoMark>)
    ensures SortedBy(r, MarkPos)
  {
    if c.bpmChanges.Some? then Sort(RawMarks(c.bpmChanges.value), MarkPos) else []
  }

  /** Each mark of Marks(c) is one of the composition's tempo changes. */
  lemma MarkIsChange(c: Composition, k: int)
    requires 0 <= k < |Marks(c)|
    ensures c.bpmChanges.Some?
    ensures exists j :: 0 <= j < |c.bpmChanges.value| &&
              Marks(c)[k] == TempoMark(ToDecimal(c.bpmChanges.value[j].position), c.bpmChanges.value[j].bpm)
  {
    var raw := RawMarks(c.bpmChanges.value);
    assert Marks(c)[k] in multiset(Marks(c));
    assert Marks(c)[k] in raw;
  }

  predicate NonZeroMarks(marks: seq<TempoMark>) {
    forall k :: 0 <= k < |marks| ==> marks[k].bpm != 0.0
  }

  /** Every tempo of the composition is non-zero, so that every segment has a finite duration. */
  predicate NonZeroTempo(c: Composition) {
    && c.bpm != 0.0
    && (c.bpmChanges.Some? ==> forall k :: 0 <= k < |c.bpmChanges.value| ==> c.bpmChanges.value[k].bpm != 0.0)
  }

  lemma MarksAreNonZero(c: Composition)
    requires NonZeroTempo(c)
    ensures NonZeroMarks(Marks(c))
  {
    forall k | 0 <= k < |Marks(c)| ensures Marks(c)[k].bpm != 0.0 {
      MarkIsChange(c, k);
    }
  }

  predicate Ready(w: Walk) {
    w.bpm != 0.0 && NonZeroMarks(w.marks)
  }

  /** `result.pop()`, a no-op on an empty list. */
  function DropLast(keys: seq<TimeKey>): (r: seq<TimeKey>)
    ensures |keys| > 0 ==> r + [keys[|keys| - 1]] == keys
    ensures |keys| == 0 ==> r == []
  {
    if |keys| == 0 then [] else keys[..|keys| - 1]
  }

  /**
   * One tempo change of bar i: the segment before it is closed at the old
   * tempo, and a key is emitted at its offset, replacing the last key when no
   * time has passed.
   */
  function TempoStep(w: Walk, i: int): (r: Walk)
    requires Ready(w) && |w.marks| > 0
    ensures Ready(r) && r.marks == w.marks[1..]
  {
    var m := w.marks[0];
    var delta := SegmentTime(w.bpm, m.pos.frac - w.offset);
    var keys := if delta == 0.0 then DropLast(w.keys) else w.keys;
    Walk(keys + [TimeKey(Decimal(i, m.pos.frac), w.time + delta)], w.marks[1..], m.bpm, m.pos.frac, w.time + delta)
  }

  /** The inner loop: every tempo change at the head of the queue that lies in bar i. */
  function TempoChanges(w: Walk, i: int): (r: Walk)
    requires Ready(w)
    ensures Ready(r)
    ensures |r.marks| == 0 || r.marks[0].pos.bar != i
    decreases |w.marks|
  {
    if |w.marks| > 0 && w.marks[0].pos.bar == i then TempoChanges(TempoStep(w, i), i) else w
  }

  /** The key at the start of bar i. */
  function BarStart(w: Walk, i: int): (r: Walk)
    ensures r.keys == w.keys + [TimeKey(Decimal(i, 0.0), w.time)]
    ensures r.marks == w.marks && r.bpm == w.bpm && r.offset == w.offset && r.time == w.time
  {
    w.(keys := w.keys + [TimeKey(Decimal(i, 0.0), w.time)])
  }

  /** The end of bar i, and after the last bar the start of the bar after it at the same time. */
  function BarEnd(w: Walk, i: int, meter: Meter, barCount: int): (r: Walk)
    requires Ready(w)
    ensures Ready(r) && r.marks == w.marks && r.offset == 0.0
  {
    var t := w.time + SegmentTime(w.bpm, BarLength(meter) - w.offset);
    var keys := w.keys + [TimeKey(Decimal(i, BarLength(meter)), t)];
    Walk(if i == barCount - 1 then keys + [TimeKey(Decimal(i + 1, 0.0), t)] else keys, w.marks, w.bpm, 0.0, t)
  }

  /** One iteration of the outer loop. */
  function Bar(w: Walk, i: int, meter: Meter, barCount: int): (r: Walk)
    requires Ready(w)
    ensures Ready(r)
  {
    BarEnd(TempoChanges(BarStart(w, i), i), i, meter, barCount)
  }

  /** The walk over bars i to barCount - 1. */
  function Bars(w: Walk, meters: map<nat, Meter>, i: nat, barCount: nat): (r: Walk)
    requires Ready(w) && 0 in meters
    ensures Ready(r)
    decreases barCount - i
  {
    if i >= barCount then w
    else Bars(Bar(w, i, FilledMeter(meters, i), barCount), meters, i + 1, barCount)
  }

  function InitialWalk(c: Composition): (r: Walk)
    requires NonZeroTempo(c)
    ensures Ready(r)
  {
    MarksAreNonZero(c);
    Walk([], Marks(c), c.bpm, 0.0, 0.0)
  }

  /** `barCount ?? getBarCountFromComposition(composition)` */
  function BarTotal(c: Composition, barCount: Option<nat>): nat {
    if barCount.Some? then barCount.value else BarCount(c)
  }

  /** What createTimeKeys returns. */
  function TimeKeysOf(c: Composition, barCount: Option<nat>): seq<TimeKey>
    requires NonZeroTempo(c)
  {
    Bars(InitialWalk(c), BaseMeters(c), 0, BarTotal(c, barCount)).keys
  }

  /** `new Map(...)` over the meter changes, entry by entry. */
  method CollectMeterChanges(cs: seq<MeterChange>) returns (meters: map<nat, Meter>)
    ensures meters == ChangeMap(cs)
  {
    meters := map[];
    var k := 0;
    while k < |cs|
      invariant 0 <= k <= |cs|
      invariant meters == ChangeMap(cs[..k])
    {
      assert cs[..k + 1][..k] == cs[..k];
      meters := meters[cs[k].position.bar := cs[k].meter];
      k := k + 1;
    }
    assert cs[..k] == cs;
  }

  /** The Map fills its gaps: bar i gets its own meter or the one of the bar before it. */
  method FillMeters(c: Composition, n: nat) returns (meters: map<nat, Meter>)
    ensures forall i :: 0 <= i < n ==> i in meters && meters[i] == FilledMeter(BaseMeters(c), i)
  {
    meters := map[];
    if c.meterChanges.Some? {
      meters := CollectMeterChanges(c.meterChanges.value);
    }
    meters := meters[0 := c.meter];
    ghost var base := BaseMeters(c);
    assert meters == base;
    var lastMeter := c.meter;
    var i := 0;
    while i < n
      invariant 0 <= i <= n
      invariant FilledBelow(meters, base, i) && AgreesFrom(meters, base, i)
      invariant lastMeter == PrevMeter(base, i)
    {
      FillStep(meters, base, i, lastMeter);
      lastMeter := if i in meters then meters[i] else lastMeter;
      assert lastMeter == PrevMeter(base, i + 1);
      meters := meters[i := lastMeter];
      i := i + 1;
    }
  }

  /** The meter the loop carries into bar i: the filled-in meter of the bar before, or the composition's own. */
  ghost function PrevMeter(base: map<nat, Meter>, i: nat): Meter
    requires 0 in base
  {
    if i == 0 then base[0] else FilledMeter(base, i - 1)
  }

  /** Bars below i hold their filled-in meter. */
  ghost predicate FilledBelow(meters: map<nat, Meter>, base: map<nat, Meter>, i: nat)
    requires 0 in base
  {
    forall j: nat :: j < i ==> j in meters && meters[j] == FilledMeter(base, j)
  }

  /** From bar i on, the map is still the one the changes gave. */
  ghost predicate AgreesFrom(meters: map<nat, Meter>, base: map<nat, Meter>, i: nat) {
    forall j: nat :: j >= i ==> (j in meters <==> j in base) && (j in base ==> meters[j] == base[j])
  }

  /** One pass of the filling loop keeps both halves of its invariant. */
  lemma FillStep(meters: map<nat, Meter>, base: map<nat, Meter>, i: nat, last: Meter)
    requires 0 in base && FilledBelow(meters, base, i) && AgreesFrom(meters, base, i)
    requires last == PrevMeter(base, i)
    ensures var next := if i in meters then meters[i] else last;
      && next == PrevMeter(base, i + 1)
      && FilledBelow(meters[i := next], base, i + 1)
      && AgreesFrom(meters[i := next], base, i + 1)
  {
    var next := if i in meters then meters[i] else last;
    assert next == FilledMeter(base, i);
    forall j: nat | j < i + 1
      ensures j in meters[i := next] && meters[i := next][j] == FilledMeter(base, j)
    {
      if j < i {
        assert meters[i := next][j] == meters[j];
      }
    }
  }

  /** The inner loop of createTimeKeys over the tempo changes of bar i. */
  method ConsumeTempoChanges(w: Walk, i: nat) returns (r: Walk)
    requires Ready(w)
    ensures r == TempoChanges(w, i)
  {
    var result, bpms, lastBpm, lastOffset, lastTime := w.keys, w.marks, w.bpm, w.offset, w.time;
    while |bpms| > 0 && bpms[0].pos.bar == i
      invariant Ready(Walk(result, bpms, lastBpm, lastOffset, lastTime))
      invariant TempoChanges(w, i) == TempoChanges(Walk(result, bpms, lastBpm, lastOffset, lastTime), i)
      decreases |bpms|
    {
      ghost var before := Walk(result, bpms, lastBpm, lastOffset, lastTime);
      var mark := bpms[0];
      bpms := bpms[1..];
      var deltaTime := SegmentTime(lastBpm, mark.pos.frac - lastOffset);
      lastBpm := mark.bpm;
      lastOffset := mark.pos.frac;
      lastTime := lastTime + deltaTime;
      if deltaTime == 0.0 {
        if |result| > 0 {
          result := result[..|result| - 1];
        }
      }
      result := result + [TimeKey(Decimal(i, lastOffset), lastTime)];
      assert Walk(result, bpms, lastBpm, lastOffset, lastTime) == TempoStep(before, i);
    }
    r := Walk(result, bpms, lastBpm, lastOffset, lastTime);
  }

  /** One bar of createTimeKeys: its start key, its tempo changes, its end key. */
  method BarStep(w: Walk, i: nat, meter: Meter, n: nat) returns (r: Walk)
    requires Ready(w)
    ensures r == Bar(w, i, meter, n)
  {
    r := w.(keys := w.keys + [TimeKey(Decimal(i, 0.0), w.time)]);
    r := ConsumeTempoChanges(r, i);
    var barDecimalLength := meter.beats as real / meter.measure as real;
    var deltaTime := SegmentTime(r.bpm, barDecimalLength - r.offset);
    var lastTime := r.time + deltaTime;
    var keys := r.keys + [TimeKey(Decimal(i, barDecimalLength), lastTime)];
    if i == n - 1 {
      keys := keys + [TimeKey(Decimal(i + 1, 0.0), lastTime)];
    }
    r := Walk(keys, r.marks, r.bpm, 0.0, lastTime);
  }

  /** createTimeKeys */
  method CreateTimeKeys(c: Composition, barCount: Option<nat>) returns (result: seq<TimeKey>)
    requires NonZeroTempo(c)
    ensures result == TimeKeysOf(c, barCount)
  {
    var n := if barCount.Some? then barCount.value else BarCount(c);
    var meters := FillMeters(c, n);
    ghost var base := BaseMeters(c);
    MarksAreNonZero(c);
    var w := Walk([], Marks(c), c.bpm, 0.0, 0.0);
    var i := 0;
    while i < n
      invariant 0 <= i <= n
      invariant Ready(w)
      invariant Bars(InitialWalk(c), base, 0, n) == Bars(w, base, i, n)
    {
      w := BarStep(w, i, meters[i], n);
      i := i + 1;
    }
    result := w.keys;
  }
}
