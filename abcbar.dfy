/**
 * buildAbcBar: one part of a bar written as ABC note tokens. The notes are
 * rescaled to a common subdivision, dropped into one bucket per tick, and a
 * greedy scan merges each note with the silent ticks after it into a longer
 * note. This module holds the definitions; AbcBarFacts proves what they
 * promise and AbcBarBuild runs the loops of buildAbcBar against them.
 */
module AbcBar {
  import opened Wrappers
  import opened NotedTypes
  import opened Numerals
  import opened Positions
  import opened CommonMeasure

  const REST: string := "z"
  const BLANK: string := "x"
  const ACCENT: string := "!^accent!"

  /** The placeholder a tick holds when a note lands on it and none resolves. */
  const EMPTY_KEY: string := "EMPTY"

  /**
   * What the note resolver returns for one note, in the parts the bar builder
   * takes apart: grace notes, annotation directives, the accent flag and the
   * note itself with its remaining decorations.
   */
  datatype Fragment = Fragment(grace: string, annotations: seq<string>, accent: bool, body: string)

  /** One entry of a tick's bucket: a resolved fragment or the placeholder. */
  datatype Entry = Empty | Frag(fragment: Fragment)

  /**
   * The grid a part is written on: its subdivision and tuplet, the part size
   * in beats, the bar's beat value, the part's first tick on the grid and the
   * number of ticks.
   */
  datatype Grid = Grid(measure: Measure, tuplet: Option<Tuplet>, partSize: nat, barMeasure: Measure,
                       offset: nat, total: nat)

  /** A run of ticks written as one token: first tick, length in ticks, note value. */
  datatype Group = Group(start: nat, size: nat, measure: Measure)

  predicate ValidGrid(g: Grid) {
    g.measure >= 4 && g.partSize > 0
  }

  predicate HasReal(b: seq<Entry>) {
    exists k :: 0 <= k < |b| && b[k].Frag?
  }

  // ------------------------------------------------------- common subdivision

  function NotePositions(notes: seq<Note>): (r: seq<Position>)
    ensures |r| == |notes|
    ensures forall k :: 0 <= k < |notes| ==> r[k] == notes[k].position
  {
    seq(|notes|, k requires 0 <= k < |notes| => notes[k].position)
  }

  /**
   * The subdivision and tuplet the notes share: a single regular note's own,
   * findCommonMeasure's for several notes, the bar's beat value for none.
   */
  function SharedGrid(notes: seq<Note>, measure: Measure): Result<Candidate, Error> {
    if |notes| == 1 && notes[0].position.RegularPos? then
      Success(Candidate(notes[0].position.measure, notes[0].position.tuplet))
    else if |notes| > 0 then
      var common :- CommonMeasureOf(NotePositions(notes));
      if common.None? then Failure(NoCommonMeasure) else Success(common.value)
    else Success(Candidate(measure, None))
  }

  /** No subdivision coarser than a quarter note. */
  function AtLeastQuarter(m: Measure): (r: Measure)
    ensures r >= 4 && r >= m
    ensures m >= 4 ==> r == m
  {
    if m < 4 then 4 else m
  }

  /** `(m * multiplier) % (partSize * measure) === 0`. */
  predicate FitsPart(m: int, t: Option<Tuplet>, partSize: nat, measure: Measure)
    requires partSize > 0
  {
    IsInteger(m as real * TupletMultiplier(t) / (partSize * measure) as real)
  }

  /** A larger subdivision is at least twice as fine. */
  lemma NextMeasureIsDouble(m: Measure, x: Measure)
    requires m < x
    ensures 2 * m <= x
  {
  }

  /**
   * The subdivision doubled until the part spans a whole number of its
   * (tuplet) ticks, or until doubling leaves the legal subdivisions: the
   * smallest such doubling.
   */
  function Raised(m: Measure, t: Option<Tuplet>, partSize: nat, measure: Measure): (r: Measure)
    requires partSize > 0
    ensures r >= m
    ensures FitsPart(r, t, partSize, measure) || !IsMeasure(2 * r)
    ensures forall x: Measure :: m <= x < r ==> !FitsPart(x, t, partSize, measure)
    decreases 256 - m
  {
    if !FitsPart(m, t, partSize, measure) && IsMeasure(2 * m) then
      var d: Measure := 2 * m;
      var r := Raised(d, t, partSize, measure);
      forall x: Measure | m <= x < r ensures !FitsPart(x, t, partSize, measure) {
        if x > m {
          NextMeasureIsDouble(m, x);
        }
      }
      r
    else m
  }

  /** `modifyPosition(p, m, t)` for every note, in order; the first failure is thrown. */
  function AdjustedPositions(notes: seq<Note>, m: Measure, t: Option<Tuplet>): (r: Result<seq<Position>, Error>)
    ensures r.Success? <==> forall k :: 0 <= k < |notes| ==> ModifyPosition(notes[k].position, m, t).Success?
    ensures r.Success? ==> |r.value| == |notes|
    ensures r.Success? ==> forall k :: 0 <= k < |notes| ==> r.value[k] == ModifyPosition(notes[k].position, m, t).value
  {
    if |notes| == 0 then Success([])
    else
      var p :- ModifyPosition(notes[0].position, m, t);
      var rest :- AdjustedPositions(notes[1..], m, t);
      assert forall k :: 1 <= k < |notes| ==> notes[k] == notes[1..][k - 1];
      Success([p] + rest)
  }

  /** `commonMeasure * multiplier * partSize / measure`: the ticks in the part. */
  function PartTicks(m: Measure, t: Option<Tuplet>, partSize: nat, measure: Measure): (r: real)
    ensures r >= 0.0
  {
    m as real * TupletMultiplier(t) * partSize as real / measure as real
  }

  function OffsetOf(p: Position): nat {
    if p.RegularPos? then p.offset else 0
  }

  /**
   * The grid of the part and the rescaled note positions, with the errors
   * buildAbcBar throws, in the order it throws them.
   */
  function PartGrid(notes: seq<Note>, partSize: nat, partOffset: nat, measure: Measure)
    : (r: Result<(Grid, seq<Position>), Error>)
    requires partSize > 0
    ensures r.Success? ==> ValidGrid(r.value.0) && |r.value.1| == |notes|
    ensures r.Success? ==> r.value.0.partSize == partSize && r.value.0.barMeasure == measure
    ensures r.Success? ==> r.value.0.total as real == PartTicks(r.value.0.measure, r.value.0.tuplet, partSize, measure)
  {
    var c :- SharedGrid(notes, measure);
    var m := Raised(AtLeastQuarter(c.measure), c.tuplet, partSize, measure);
    var op :- ModifyPosition(RegularPos(0, partOffset, measure, None), m, c.tuplet);
    var adjusted :- AdjustedPositions(notes, m, c.tuplet);
    var total := PartTicks(m, c.tuplet, partSize, measure);
    if !IsInteger(total) then Failure(FractionalBarTicks)
    else Success((Grid(m, c.tuplet, partSize, measure, OffsetOf(op), total.Floor as nat), adjusted))
  }

  // ------------------------------------------------------------------ buckets

  /** A rescaled note lands on tick t of the part. */
  predicate LandsOn(p: Position, offset: nat, t: int) {
    p.RegularPos? && p.offset - offset == t
  }

  /** The resolved fragments of the notes that land on tick t, in note order. */
  function Arrivals(ps: seq<Position>, rs: seq<Option<Fragment>>, offset: nat, t: int): (r: seq<Fragment>)
    requires |ps| == |rs|
    ensures |r| > 0 ==> exists k :: 0 <= k < |ps| && LandsOn(ps[k], offset, t) && rs[k].Some?
    ensures (exists k :: 0 <= k < |ps| && LandsOn(ps[k], offset, t) && rs[k].Some?) ==> |r| > 0
  {
    if |ps| == 0 then []
    else
      var n := |ps| - 1;
      var a := Arrivals(ps[..n], rs[..n], offset, t);
      if LandsOn(ps[n], offset, t) && rs[n].Some? then a + [rs[n].value] else a
  }

  predicate AnyLands(ps: seq<Position>, offset: nat, t: int) {
    exists k :: 0 <= k < |ps| && LandsOn(ps[k], offset, t)
  }

  function Entries(fs: seq<Fragment>): (r: seq<Entry>)
    ensures |r| == |fs| && forall k :: 0 <= k < |fs| ==> r[k] == Frag(fs[k])
  {
    seq(|fs|, k requires 0 <= k < |fs| => Frag(fs[k]))
  }

  /** `.filter(v => v !== 'EMPTY')`: the fragments of a bucket without the placeholder. */
  function RealEntries(b: seq<Entry>): (r: seq<Entry>)
    ensures |r| <= |b|
    ensures forall k :: 0 <= k < |r| ==> r[k].Frag?
    ensures forall e :: e in r <==> e in b && e.Frag?
    ensures |r| > 0 <==> HasReal(b)
  {
    if |b| == 0 then []
    else
      assert HasReal(b) <==> b[0].Frag? || HasReal(b[1..]) by {
        if HasReal(b) && !b[0].Frag? {
          var k :| 0 <= k < |b| && b[k].Frag?;
          assert b[1..][k - 1] == b[k];
        }
        if HasReal(b[1..]) {
          var k :| 0 <= k < |b[1..]| && b[1..][k].Frag?;
          assert b[k + 1] == b[1..][k];
        }
      }
      (if b[0].Frag? then [b[0]] else []) + RealEntries(b[1..])
  }

  /**
   * One note placed on its tick: a resolved fragment joins the tick's real
   * fragments, an unresolved note leaves the placeholder on a tick that has none.
   */
  function Push(before: seq<Entry>, resolved: Option<Fragment>): seq<Entry> {
    if resolved.Some? then RealEntries(before) + [Frag(resolved.value)]
    else if |RealEntries(before)| == 0 then [Empty]
    else before
  }

  /** What tick t holds once every note is placed. */
  function Bucket(ps: seq<Position>, rs: seq<Option<Fragment>>, offset: nat, t: int): seq<Entry>
    requires |ps| == |rs|
  {
    var a := Arrivals(ps, rs, offset, t);
    if |a| > 0 then Entries(a) else if AnyLands(ps, offset, t) then [Empty] else []
  }

  function Buckets(g: Grid, ps: seq<Position>, rs: seq<Option<Fragment>>): (r: seq<seq<Entry>>)
    requires |ps| == |rs|
    ensures |r| == g.total
    ensures forall t :: 0 <= t < g.total ==> r[t] == Bucket(ps, rs, g.offset, t)
  {
    seq(g.total, t requires 0 <= t < g.total => Bucket(ps, rs, g.offset, t))
  }

  // ------------------------------------------------------------ grouping scan

  /** The factor the grouping grows by: the tuplet's p on the first step, then 2. */
  function Multiplier(t: Option<Tuplet>, grouping: nat): (r: nat)
    ensures r >= 2
  {
    if grouping == 1 && t.Some? then t.value.p as nat else 2
  }

  /** The factor a merged tuplet run is scaled by: 3/2 when q is a multiple of 3. */
  function DotFactor(t: Option<Tuplet>): real {
    if t.Some? && t.value.q % 3 == 0 then 3.0 / 2.0 else 1.0
  }

  /** `m / n`, times the tuplet multiplier mu and the dot factor when scaled. */
  function ScaledValue(m: real, n: real, mu: real, dot: real, scaled: bool): real
    requires n != 0.0
  {
    var r := m / n;
    if scaled then r * mu * dot else r
  }

  /** The note value of n merged ticks: 1/n of the grid, with the tuplet and dotted factors. */
  function MergedMeasure(g: Grid, n: nat): real
    requires n > 0
  {
    ScaledValue(g.measure as real, n as real, TupletMultiplier(g.tuplet), DotFactor(g.tuplet), n > 1 && g.tuplet.Some?)
  }

  /** Some tick in [lo, hi) holds a fragment other than the placeholder. */
  predicate Occupied(b: seq<seq<Entry>>, lo: nat, hi: nat)
    requires lo <= hi <= |b|
  {
    exists k :: lo <= k < hi && HasReal(b[k])
  }

  /**
   * One step of the inner scan: the next grouping and its note value, or None
   * where the code breaks out of the loop. The code's empty-slice test is
   * left out: the grouping is at least 2, so the slice is never empty.
   */
  function NextGrouping(g: Grid, b: seq<seq<Entry>>, i: nat, grouping: nat): (r: Option<(nat, Measure)>)
    requires |b| == g.total && grouping >= 1
    ensures r.Some? ==> grouping < r.value.0 && i + r.value.0 <= g.total && i % r.value.0 == 0
    ensures r.Some? ==> r.value.0 == grouping * Multiplier(g.tuplet, grouping)
    ensures r.Some? ==> !Occupied(b, i + 1, i + r.value.0)
    ensures r.Some? ==> r.value.1 as real == MergedMeasure(g, r.value.0)
    ensures r.Some? ==> r.value.1 >= 4 || (grouping == 1 && g.tuplet.Some?)
  {
    var n := grouping * Multiplier(g.tuplet, grouping);
    if i + n > g.total || i % n != 0 || Occupied(b, i + 1, i + n) then None
    else
      var v := MergedMeasure(g, n);
      var m := AsMeasure(v);
      if m.None? || (v < 4.0 && (grouping > 1 || g.tuplet.None?)) then None
      else Some((n, m.value))
  }

  /** The longest grouping the scan reaches from tick i, and its note value. */
  function Grow(g: Grid, b: seq<seq<Entry>>, i: nat, grouping: nat, rm: Measure): (r: (nat, Measure))
    requires |b| == g.total && grouping >= 1 && i + grouping <= g.total && i % grouping == 0
    requires !Occupied(b, i + 1, i + grouping)
    requires rm >= 4 || (g.tuplet.Some? && grouping == g.tuplet.value.p)
    ensures grouping <= r.0 && i + r.0 <= g.total
    decreases g.total - grouping
  {
    match NextGrouping(g, b, i, grouping)
    case None => (grouping, rm)
    case Some((n, m)) => Grow(g, b, i, n, m)
  }

  /** The group the scan writes at tick i. */
  function GroupAt(g: Grid, b: seq<seq<Entry>>, i: nat): (r: Group)
    requires ValidGrid(g) && |b| == g.total && i < g.total
    ensures r.start == i && r.size >= 1 && i + r.size <= g.total
  {
    var (s, m) := Grow(g, b, i, 1, g.measure);
    Group(i, s, m)
  }

  function SizeSum(gs: seq<Group>): nat {
    if |gs| == 0 then 0 else gs[0].size + SizeSum(gs[1..])
  }

  /** Every group the scan writes from tick i on, in order. */
  function Groups(g: Grid, b: seq<seq<Entry>>, i: nat): (r: seq<Group>)
    requires ValidGrid(g) && |b| == g.total && i <= g.total
    ensures forall k :: 0 <= k < |r| ==> i <= r[k].start < g.total
    decreases g.total - i
  {
    if i == g.total then []
    else
      var grp := GroupAt(g, b, i);
      [grp] + Groups(g, b, i + grp.size)
  }

  /** The length of one tick of the grid, in whole notes. */
  function GridTick(g: Grid): (r: real)
    ensures r > 0.0
  {
    1.0 / (g.measure as real * TupletMultiplier(g.tuplet))
  }

  /**
   * The length a group's token is written to last, in whole notes: its note
   * value, dotted or not, and for a tuplet tick scaled by the `(p:q` marker.
   */
  function WrittenLength(g: Grid, grp: Group): real {
    var value := NoteValue(IsDotted(g, grp), grp.measure);
    if IsTupletTick(g, grp) then value / TupletMultiplier(g.tuplet) else value
  }

  /** The length a suffix `/m` or `3/2m` stands for, in whole notes. */
  function NoteValue(dotted: bool, m: Measure): real {
    if dotted then 3.0 / (2 * m) as real else 1.0 / m as real
  }

  /** The written lengths of a run of groups, added up. */
  function WrittenSum(g: Grid, gs: seq<Group>): real {
    if |gs| == 0 then 0.0 else WrittenLength(g, gs[0]) + WrittenSum(g, gs[1..])
  }

  /** The groups lie end to end, each at least one tick long, from tick lo to tick hi. */
  predicate Tiles(gs: seq<Group>, lo: nat, hi: nat)
    decreases |gs|
  {
    if |gs| == 0 then lo == hi
    else gs[0].start == lo && gs[0].size >= 1 && Tiles(gs[1..], lo + gs[0].size, hi)
  }

  // ------------------------------------------------------------------- tokens

  function Key(e: Entry): string {
    match e
    case Empty => EMPTY_KEY
    case Frag(f) => f.body
  }

  /** `[...new Set(xs)]`: the first occurrence of each string, in order. */
  function Distinct(xs: seq<string>): seq<string> {
    if |xs| == 0 then []
    else
      var d := Distinct(xs[..|xs| - 1]);
      if xs[|xs| - 1] in d then d else d + [xs[|xs| - 1]]
  }

  /** The note length written after a token: `/m`, or `3/2m` for a dotted run. */
  function Suffix(dotted: bool, m: Measure): string {
    if dotted then "3/" + NatToString(2 * m) else "/" + NatToString(m)
  }

  /** The distinct notes of a bucket, each with the suffix. */
  function RegularNotes(b: seq<Entry>, suffix: string): seq<string> {
    Distinct(seq(|b|, k requires 0 <= k < |b| => Key(b[k]) + suffix))
  }

  /** The four kinds of token: a rest, an invisible rest, a note, a chord. */
  datatype Shape = RestShape | BlankShape | NoteShape(note: string) | ChordShape(notes: seq<string>)

  function ShapeOf(b: seq<Entry>, suffix: string): Shape {
    var regular := RegularNotes(b, suffix);
    if |regular| == 0 then RestShape
    else if |regular| == 1 && regular[0] == EMPTY_KEY + suffix then BlankShape
    else if |regular| == 1 then NoteShape(regular[0])
    else ChordShape(regular)
  }

  function Concat(xs: seq<string>): string {
    if |xs| == 0 then [] else xs[0] + Concat(xs[1..])
  }

  /** The grace notes of a bucket's fragments, in order. */
  function Graces(b: seq<Entry>): string {
    if |b| == 0 then [] else (if b[0].Frag? then b[0].fragment.grace else []) + Graces(b[1..])
  }

  /** Each annotation directive on lines of its own. */
  function AnnotationLines(xs: seq<string>): string {
    if |xs| == 0 then [] else "\n" + xs[0] + "\n" + AnnotationLines(xs[1..])
  }

  /** The annotations of a bucket's fragments, in order. */
  function Annotations(b: seq<Entry>): string {
    if |b| == 0 then [] else (if b[0].Frag? then AnnotationLines(b[0].fragment.annotations) else []) + Annotations(b[1..])
  }

  predicate Accented(b: seq<Entry>) {
    exists k :: 0 <= k < |b| && b[k].Frag? && b[k].fragment.accent
  }

  /** A single tick of a tuplet, written under a `(p:q` marker. */
  predicate IsTupletTick(g: Grid, grp: Group) {
    grp.size == 1 && g.tuplet.Some?
  }

  /** A merged run of a tuplet whose q is a multiple of 3, written as a dotted note. */
  predicate IsDotted(g: Grid, grp: Group) {
    grp.size > 1 && g.tuplet.Some? && g.tuplet.value.q % 3 == 0
  }

  /** The ticks of one beat: a quarter-note beat, or three of them in a compound part. */
  function BeatLength(g: Grid): (r: real)
    ensures r > 0.0
  {
    g.measure as real / g.barMeasure as real * (if g.partSize % 3 == 0 then 3.0 else 1.0) * TupletMultiplier(g.tuplet)
  }

  /** `i % beat === 0`. */
  predicate StrongBeat(g: Grid, i: nat) {
    IsInteger(i as real / BeatLength(g))
  }

  /** The space that separates beats, left out inside a tuplet. */
  function BeatSpace(g: Grid, grp: Group): string {
    if StrongBeat(g, grp.start) && !IsTupletTick(g, grp) then " " else ""
  }

  function AccentText(b: seq<Entry>): string {
    if Accented(b) then ACCENT else ""
  }

  /** The token of one group, written from the bucket of its first tick. */
  function TokenText(g: Grid, b: seq<seq<Entry>>, grp: Group): string
    requires grp.start < |b|
  {
    var bucket := b[grp.start];
    var sfx := Suffix(IsDotted(g, grp), grp.measure);
    var space := BeatSpace(g, grp);
    match ShapeOf(bucket, sfx)
    case RestShape => space + REST + sfx
    case BlankShape => space + BLANK + sfx
    case NoteShape(n) => Graces(bucket) + Annotations(bucket) + space + AccentText(bucket) + n
    case ChordShape(ns) => Graces(bucket) + Annotations(bucket) + space + AccentText(bucket) + "[" + Concat(ns) + "]"
  }

  /** ` (p:q`, the ABC tuplet marker. */
  function TupletLabel(t: Tuplet): string {
    " (" + NatToString(t.p as nat) + ":" + NatToString(t.q as nat)
  }

  /** `%%beamslope 1` and `(p:q` before the first tick of each tuplet. */
  function OpenMarker(g: Grid, grp: Group): string {
    if IsTupletTick(g, grp) && grp.start % g.tuplet.value.p == 0 then "\n%%beamslope 1\n" + TupletLabel(g.tuplet.value)
    else []
  }

  /** `%%beamslope 0` after the last tick of each tuplet. */
  function CloseMarker(g: Grid, grp: Group): string {
    if IsTupletTick(g, grp) && grp.start % g.tuplet.value.p == g.tuplet.value.p - 1 then "\n%%beamslope 0\n"
    else []
  }

  /** The markers and token of one group. */
  function GroupText(g: Grid, b: seq<seq<Entry>>, grp: Group): string
    requires grp.start < |b|
  {
    OpenMarker(g, grp) + TokenText(g, b, grp) + CloseMarker(g, grp)
  }

  /** The text of a run of groups, in order. */
  function GroupsText(g: Grid, b: seq<seq<Entry>>, gs: seq<Group>): string
    requires forall k :: 0 <= k < |gs| ==> gs[k].start < |b|
  {
    if |gs| == 0 then [] else GroupText(g, b, gs[0]) + GroupsText(g, b, gs[1..])
  }

  /** The text the scan writes for a group that starts at tick t, for every tick. */
  function TickTexts(g: Grid, b: seq<seq<Entry>>): (r: seq<string>)
    requires ValidGrid(g) && |b| == g.total
    ensures |r| == g.total
    ensures forall t :: 0 <= t < g.total ==> r[t] == GroupText(g, b, GroupAt(g, b, t))
  {
    seq(g.total, t requires 0 <= t < g.total => GroupText(g, b, GroupAt(g, b, t)))
  }

  /** The scan from tick i on: each group's text, taken from texts, appended to acc. */
  function ScanFrom(g: Grid, b: seq<seq<Entry>>, i: nat, acc: string, texts: seq<string>): string
    requires ValidGrid(g) && |b| == g.total && i <= g.total && |texts| == g.total
    decreases g.total - i
  {
    if i == g.total then acc
    else ScanFrom(g, b, i + GroupAt(g, b, i).size, acc + texts[i], texts)
  }

  /** `replaceAll('\n\n', '\n')`, scanning left to right. */
  function Collapse(s: string): string {
    if |s| >= 2 && s[0] == '\n' && s[1] == '\n' then "\n" + Collapse(s[2..])
    else if |s| > 0 then [s[0]] + Collapse(s[1..])
    else []
  }

  /** The scan over a filled grid: every group written in order, then the blank lines collapsed. */
  function ScanText(g: Grid, b: seq<seq<Entry>>): string
    requires ValidGrid(g) && |b| == g.total
  {
    Collapse(ScanFrom(g, b, 0, [], TickTexts(g, b)))
  }

  /** What buildAbcBar returns, or the error it throws. */
  function BarText(notes: seq<Note>, resolved: seq<Option<Fragment>>, partSize: nat, partOffset: nat, measure: Measure)
    : Result<string, Error>
    requires partSize > 0 && |resolved| == |notes|
  {
    var r :- PartGrid(notes, partSize, partOffset, measure);
    Success(ScanText(r.0, Buckets(r.0, r.1, resolved)))
  }
}
