/**
 * buildAbcBar as its loops run it: the doubling loop for the subdivision,
 * the note map filled in place, the greedy grouping scan with its inner loop,
 * and the token text appended group by group. Each method is proved to
 * compute what the definitions of AbcBar say.
 */
module AbcBarBuild {
  import opened Wrappers
  import opened NotedTypes
  import opened Numerals
  import opened Positions
  import opened CommonMeasure
  import opened CommonMeasureSearch
  import opened AbcBar
  import opened AbcBarFacts

  /** Doubles the subdivision until the part spans whole ticks or doubling leaves the legal values. */
  method RaiseMeasure(m: Measure, t: Option<Tuplet>, partSize: nat, measure: Measure) returns (r: Measure)
    requires partSize > 0
    ensures r == Raised(m, t, partSize, measure)
  {
    r := m;
    while !FitsPart(r, t, partSize, measure) && IsMeasure(2 * r)
      invariant Raised(r, t, partSize, measure) == Raised(m, t, partSize, measure)
      decreases 256 - r
    {
      var value: Measure := 2 * r;
      r := value;
    }
  }

  /** One note pushed onto the tick it lands on; every other tick keeps its bucket. */
  method PlaceNote(noteMap: array<seq<Entry>>, p: Position, resolved: Option<Fragment>, offset: nat)
    modifies noteMap
    ensures forall t :: 0 <= t < noteMap.Length ==>
              noteMap[t] == if LandsOn(p, offset, t) then Push(old(noteMap[t]), resolved) else old(noteMap[t])
  {
    if p.RegularPos? && 0 <= p.offset - offset < noteMap.Length {
      var idx := p.offset - offset;
      var value := RealEntries(noteMap[idx]);
      if resolved.Some? {
        value := value + [Frag(resolved.value)];
        noteMap[idx] := value;
      } else if |value| == 0 {
        value := [Empty];
        noteMap[idx] := value;
      }
      assert noteMap[idx] == Push(old(noteMap[idx]), resolved);
      assert forall t :: 0 <= t < noteMap.Length && t != idx ==> noteMap[t] == old(noteMap[t]);
    }
  }

  /** The note map: one bucket per tick, each note's fragment pushed onto the bucket it lands on. */
  method FillBuckets(g: Grid, ps: seq<Position>, rs: seq<Option<Fragment>>) returns (noteMap: array<seq<Entry>>)
    requires |ps| == |rs|
    ensures fresh(noteMap)
    ensures noteMap[..] == Buckets(g, ps, rs)
  {
    noteMap := new seq<Entry>[g.total](_ => []);
    for k := 0 to |ps|
      invariant noteMap.Length == g.total
      invariant forall t :: 0 <= t < g.total ==> noteMap[t] == Bucket(ps[..k], rs[..k], g.offset, t)
    {
      forall t | 0 <= t < g.total
        ensures var before := Bucket(ps[..k], rs[..k], g.offset, t);
                Bucket(ps[..k + 1], rs[..k + 1], g.offset, t) ==
                  if LandsOn(ps[k], g.offset, t) then Push(before, rs[k]) else before
      {
        BucketStep(ps, rs, g.offset, t, k);
      }
      PlaceNote(noteMap, ps[k], rs[k], g.offset);
    }
    assert ps[..|ps|] == ps && rs[..|rs|] == rs;
  }

  /** `noteMap.slice(lo, hi).filter(n => n.filter(v => v !== 'EMPTY').length > 0).length !== 0`. */
  method SliceHoldsNotes(b: seq<seq<Entry>>, lo: nat, hi: nat) returns (found: bool)
    requires lo <= hi <= |b|
    ensures found == Occupied(b, lo, hi)
  {
    var count := 0;
    for k := lo to hi
      invariant count == 0 <==> !Occupied(b, lo, k)
    {
      if |RealEntries(b[k])| > 0 {
        count := count + 1;
      }
    }
    found := count != 0;
  }

  /** `commonMeasure / n`, times the tuplet multiplier and the dotted factor once ticks merge. */
  method MergeValue(g: Grid, n: nat) returns (result: real)
    requires n > 0
    ensures result == MergedMeasure(g, n)
  {
    result := g.measure as real / n as real;
    if n > 1 && g.tuplet.Some? {
      result := result * TupletMultiplier(g.tuplet);
      result := result * if g.tuplet.value.q % 3 == 0 then 3.0 / 2.0 else 1.0;
      assert result == ScaledValue(g.measure as real, n as real, TupletMultiplier(g.tuplet), DotFactor(g.tuplet), true);
    }
  }

  /**
   * One pass of the inner loop's body: the checks that break out of it, in
   * the code's order, or the grouping and note value it moves on to.
   */
  method GrowStep(g: Grid, b: seq<seq<Entry>>, i: nat, grouping: nat) returns (next: Option<(nat, Measure)>)
    requires |b| == g.total && grouping >= 1
    ensures next == NextGrouping(g, b, i, grouping)
  {
    var multiplier := if grouping == 1 && g.tuplet.Some? then g.tuplet.value.p as nat else 2;
    var n := grouping * multiplier;
    if i + n > g.total {
      return None;
    }
    if i % n != 0 {
      return None;
    }
    var taken := SliceHoldsNotes(b, i + 1, i + n);
    if taken {
      return None;
    }
    var result := MergeValue(g, n);
    var m := AsMeasure(result);
    if m.None? {
      return None;
    }
    if result < 4.0 && (grouping > 1 || g.tuplet.None?) {
      return None;
    }
    return Some((n, m.value));
  }

  /** The inner `while (true)` loop: the longest grouping that starts at tick i. */
  method GrowGroup(g: Grid, b: seq<seq<Entry>>, i: nat) returns (grouping: nat, resultMeasure: Measure)
    requires ValidGrid(g) && |b| == g.total && i < g.total
    ensures (grouping, resultMeasure) == Grow(g, b, i, 1, g.measure)
  {
    grouping, resultMeasure := 1, g.measure;
    while true
      invariant grouping >= 1 && i + grouping <= g.total && i % grouping == 0
      invariant !Occupied(b, i + 1, i + grouping)
      invariant resultMeasure >= 4 || (g.tuplet.Some? && grouping == g.tuplet.value.p)
      invariant Grow(g, b, i, grouping, resultMeasure) == Grow(g, b, i, 1, g.measure)
      decreases g.total - grouping
    {
      var step := GrowStep(g, b, i, grouping);
      if step.None? {
        break;
      }
      grouping, resultMeasure := step.value.0, step.value.1;
    }
  }

  /** The token of one group, built by the code's if-chain over the distinct notes. */
  method RenderToken(g: Grid, b: seq<seq<Entry>>, grp: Group) returns (rendered: string)
    requires grp.start < |b|
    ensures rendered == TokenText(g, b, grp)
  {
    var bucket := b[grp.start];
    var isDotted := grp.size > 1 && g.tuplet.Some? && g.tuplet.value.q % 3 == 0;
    var isTuplet := grp.size == 1 && g.tuplet.Some?;
    var sfx := Suffix(isDotted, grp.measure);
    var regularNotes := RegularNotes(bucket, sfx);
    var space := if StrongBeat(g, grp.start) && !isTuplet then " " else "";
    var accent := if Accented(bucket) then ACCENT else "";
    assert sfx == Suffix(IsDotted(g, grp), grp.measure) && space == BeatSpace(g, grp) && accent == AccentText(bucket);
    if |regularNotes| == 0 {
      assert ShapeOf(bucket, sfx) == RestShape;
      rendered := space + REST + sfx;
    } else if |regularNotes| == 1 && regularNotes[0] == EMPTY_KEY + sfx {
      assert ShapeOf(bucket, sfx) == BlankShape;
      rendered := space + BLANK + sfx;
    } else if |regularNotes| == 1 {
      assert ShapeOf(bucket, sfx) == NoteShape(regularNotes[0]);
      rendered := Graces(bucket) + Annotations(bucket) + space + accent + regularNotes[0];
    } else {
      assert ShapeOf(bucket, sfx) == ChordShape(regularNotes);
      rendered := Graces(bucket) + Annotations(bucket) + space + accent + "[" + Concat(regularNotes) + "]";
    }
  }

  /** The `(p:q` marker, with beam slopes switched on, before the first tick of a tuplet. */
  method TupletOpening(g: Grid, grp: Group) returns (open: string)
    ensures open == OpenMarker(g, grp)
  {
    open := "";
    var isTuplet := grp.size == 1 && g.tuplet.Some?;
    if isTuplet && grp.start % g.tuplet.value.p == 0 {
      open := "\n%%beamslope 1\n";
      open := open + TupletLabel(g.tuplet.value);
    }
  }

  /** Flat beam slopes switched back on after the last tick of a tuplet. */
  method TupletClosing(g: Grid, grp: Group) returns (close: string)
    ensures close == CloseMarker(g, grp)
  {
    close := "";
    var isTuplet := grp.size == 1 && g.tuplet.Some?;
    if isTuplet && grp.start % g.tuplet.value.p == g.tuplet.value.p - 1 {
      close := "\n%%beamslope 0\n";
    }
  }

  /** One round of the outer loop: the group at tick i, its markers and token appended to result. */
  method ScanRound(g: Grid, b: seq<seq<Entry>>, i: nat, result: string) returns (next: nat, text: string)
    requires ValidGrid(g) && |b| == g.total && i < g.total
    ensures i < next <= g.total
    ensures ScanFrom(g, b, i, result, TickTexts(g, b)) == ScanFrom(g, b, next, text, TickTexts(g, b))
  {
    var grouping, resultMeasure := GrowGroup(g, b, i);
    var grp := Group(i, grouping, resultMeasure);
    var open := TupletOpening(g, grp);
    text := result + open;
    var rendered := RenderToken(g, b, grp);
    text := text + rendered;
    var close := TupletClosing(g, grp);
    text := text + close;
    next := i + grouping;
    assert grp == GroupAt(g, b, i);
    AppendThree(result, open, rendered, close);
    assert text == result + TickTexts(g, b)[i];
    ScanFromStep(g, b, i, result, TickTexts(g, b));
  }

  /** The scan at tick i appends that tick's text and goes on after its group. */
  lemma ScanFromStep(g: Grid, b: seq<seq<Entry>>, i: nat, acc: string, texts: seq<string>)
    requires ValidGrid(g) && |b| == g.total && i < g.total && |texts| == g.total
    ensures ScanFrom(g, b, i, acc, texts) == ScanFrom(g, b, i + GroupAt(g, b, i).size, acc + texts[i], texts)
  {
  }

  /** The outer scan: each group's markers and token appended in order, then blank lines collapsed. */
  method ScanBar(g: Grid, b: seq<seq<Entry>>) returns (text: string)
    requires ValidGrid(g) && |b| == g.total
    ensures text == ScanText(g, b)
  {
    var result: string := [];
    var i: nat := 0;
    while i < g.total
      invariant i <= g.total
      invariant ScanFrom(g, b, i, result, TickTexts(g, b)) == ScanFrom(g, b, 0, [], TickTexts(g, b))
      decreases g.total - i
    {
      i, result := ScanRound(g, b, i, result);
    }
    text := Collapse(result);
  }

  /** Three appends in a row add the three pieces together. */
  lemma AppendThree(before: string, open: string, rendered: string, close: string)
    ensures before + open + rendered + close == before + (open + rendered + close)
  {
  }

  /** The subdivision and tuplet the part's notes share, before the quarter floor. */
  method CommonGrid(notes: seq<Note>, measure: Measure) returns (r: Result<Candidate, Error>)
    ensures r == SharedGrid(notes, measure)
  {
    if |notes| == 1 && notes[0].position.RegularPos? {
      return Success(Candidate(notes[0].position.measure, notes[0].position.tuplet));
    } else if |notes| > 0 {
      var common := FindCommonMeasure(NotePositions(notes));
      if common.Failure? {
        return Failure(common.error);
      }
      if common.value.None? {
        return Failure(NoCommonMeasure);
      }
      return Success(common.value.value);
    }
    return Success(Candidate(measure, None));
  }

  /**
   * The first half of buildAbcBar: the common subdivision, the doubling loop,
   * the part's first tick, the rescaled notes and the tick count, with the
   * errors it throws.
   */
  method PlanPart(notes: seq<Note>, partSize: nat, partOffset: nat, measure: Measure)
    returns (r: Result<(Grid, seq<Position>), Error>)
    requires partSize > 0
    ensures r == PartGrid(notes, partSize, partOffset, measure)
  {
    var shared := CommonGrid(notes, measure);
    if shared.Failure? {
      return Failure(shared.error);
    }
    var commonMeasure: Measure, commonTuplet := shared.value.measure, shared.value.tuplet;
    commonMeasure := if commonMeasure < 4 then 4 else commonMeasure;
    commonMeasure := RaiseMeasure(commonMeasure, commonTuplet, partSize, measure);

    var offsetPosition := ModifyPosition(RegularPos(0, partOffset, measure, None), commonMeasure, commonTuplet);
    if offsetPosition.Failure? {
      return Failure(offsetPosition.error);
    }
    var offset := if offsetPosition.value.RegularPos? then offsetPosition.value.offset else 0;
    var adjustedNotes := AdjustedPositions(notes, commonMeasure, commonTuplet);
    if adjustedNotes.Failure? {
      return Failure(adjustedNotes.error);
    }
    var totalTicks := PartTicks(commonMeasure, commonTuplet, partSize, measure);
    if !IsInteger(totalTicks) {
      return Failure(FractionalBarTicks);
    }
    var grid := Grid(commonMeasure, commonTuplet, partSize, measure, offset, totalTicks.Floor as nat);
    return Success((grid, adjustedNotes.value));
  }

  /** buildAbcBar: the part's grid, the note map and the scan. */
  method BuildAbcBar(notes: seq<Note>, resolved: seq<Option<Fragment>>, partSize: nat, partOffset: nat,
                     measure: Measure) returns (r: Result<string, Error>)
    requires partSize > 0 && |resolved| == |notes|
    ensures r == BarText(notes, resolved, partSize, partOffset, measure)
  {
    var plan := PlanPart(notes, partSize, partOffset, measure);
    if plan.Failure? {
      return Failure(plan.error);
    }
    var (grid, adjusted) := plan.value;
    var noteMap := FillBuckets(grid, adjusted, resolved);
    var text := ScanBar(grid, noteMap[..]);
    return Success(text);
  }
}
