/**
 * The greedy grouping of buildAbcBar: every group starts on a multiple of its
 * length, covers only silent ticks after its first, stops where the next
 * merge is refused, and the groups tile the part.
 */
module AbcBarGrouping {
  import opened Wrappers
  import opened NotedTypes
  import opened Positions
  import opened CommonMeasure
  import opened Divisors
  import opened AbcBar

  /**
   * Where the inner loop stops: a multiple of the starting grouping that the
   * tick is aligned to, over ticks without a real fragment, whose note value
   * is the merged value (or the grid's when nothing merged), at least a
   * quarter unless it is the tuplet's first merge, and no further merge allowed.
   */
  lemma {:induction false} GrowStops(g: Grid, b: seq<seq<Entry>>, i: nat, grouping: nat, rm: Measure)
    requires |b| == g.total && grouping >= 1 && i + grouping <= g.total && i % grouping == 0
    requires !Occupied(b, i + 1, i + grouping)
    requires rm >= 4 || (g.tuplet.Some? && grouping == g.tuplet.value.p)
    ensures var (n, m) := Grow(g, b, i, grouping, rm);
            && i % n == 0 && n % grouping == 0
            && !Occupied(b, i + 1, i + n)
            && NextGrouping(g, b, i, n).None?
            && (n == grouping ==> m == rm)
            && (n > grouping ==> m as real == MergedMeasure(g, n))
            && (m >= 4 || (g.tuplet.Some? && n == g.tuplet.value.p))
    decreases g.total - grouping
  {
    match NextGrouping(g, b, i, grouping)
    case None =>
    case Some((n, m)) =>
      GrowStops(g, b, i, n, m);
      var (n', m') := Grow(g, b, i, n, m);
      assert n == Multiplier(g.tuplet, grouping) * grouping;
      MultipleIsDivisible(Multiplier(g.tuplet, grouping), grouping);
      DividesTransitive(grouping, n, n');
  }

  /** The group written at tick i, as the inner loop leaves it. */
  lemma GroupAtStops(g: Grid, b: seq<seq<Entry>>, i: nat)
    requires ValidGrid(g) && |b| == g.total && i < g.total
    ensures var grp := GroupAt(g, b, i);
            && i % grp.size == 0
            && !Occupied(b, i + 1, i + grp.size)
            && NextGrouping(g, b, i, grp.size).None?
            && (grp.size == 1 ==> grp.measure == g.measure)
            && (grp.size > 1 ==> grp.measure as real == MergedMeasure(g, grp.size))
            && (grp.measure >= 4 || (g.tuplet.Some? && grp.size == g.tuplet.value.p))
  {
    GrowStops(g, b, i, 1, g.measure);
  }

  /** The scan from tick i writes groups that tile the rest of the part, each the group of its own first tick. */
  lemma {:induction false} GroupsTile(g: Grid, b: seq<seq<Entry>>, i: nat)
    requires ValidGrid(g) && |b| == g.total && i <= g.total
    ensures Tiles(Groups(g, b, i), i, g.total)
    ensures forall k :: 0 <= k < |Groups(g, b, i)| ==>
              Groups(g, b, i)[k].start < g.total && Groups(g, b, i)[k] == GroupAt(g, b, Groups(g, b, i)[k].start)
    decreases g.total - i
  {
    if i < g.total {
      var grp := GroupAt(g, b, i);
      GroupsTile(g, b, i + grp.size);
      var gs := Groups(g, b, i);
      assert gs[1..] == Groups(g, b, i + grp.size);
    }
  }

  /** Tiled groups add up to the length of the span. */
  lemma {:induction false} TilesSize(gs: seq<Group>, lo: nat, hi: nat)
    requires Tiles(gs, lo, hi)
    ensures lo <= hi && SizeSum(gs) == hi - lo
    decreases |gs|
  {
    if |gs| > 0 {
      TilesSize(gs[1..], lo + gs[0].size, hi);
    }
  }

  /** Every tick of a tiled span lies in some group. */
  lemma {:induction false} TilesCover(gs: seq<Group>, lo: nat, hi: nat, t: nat)
    requires Tiles(gs, lo, hi) && lo <= t < hi
    ensures exists k :: 0 <= k < |gs| && gs[k].start <= t < gs[k].start + gs[k].size
    decreases |gs|
  {
    if t >= lo + gs[0].size {
      TilesCover(gs[1..], lo + gs[0].size, hi, t);
      var k :| 0 <= k < |gs[1..]| && gs[1..][k].start <= t < gs[1..][k].start + gs[1..][k].size;
      assert gs[k + 1] == gs[1..][k];
    } else {
      assert gs[0].start <= t;
    }
  }

  /** In a tiled span, an earlier group ends before a later one starts. */
  lemma {:induction false} TilesOrdered(gs: seq<Group>, lo: nat, hi: nat, j: nat, k: nat)
    requires Tiles(gs, lo, hi) && j < k < |gs|
    ensures lo <= gs[j].start && gs[j].start + gs[j].size <= gs[k].start
    decreases |gs|
  {
    if j == 0 {
      TilesStart(gs[1..], lo + gs[0].size, hi, k - 1);
    } else {
      TilesOrdered(gs[1..], lo + gs[0].size, hi, j - 1, k - 1);
    }
  }

  /** Every group of a tiled span starts at or after lo. */
  lemma {:induction false} TilesStart(gs: seq<Group>, lo: nat, hi: nat, k: nat)
    requires Tiles(gs, lo, hi) && k < |gs|
    ensures lo <= gs[k].start
    decreases |gs|
  {
    if k > 0 {
      TilesStart(gs[1..], lo + gs[0].size, hi, k - 1);
    }
  }

  /** No tick lies in two groups. */
  lemma TilesDisjoint(gs: seq<Group>, lo: nat, hi: nat, j: nat, k: nat, t: nat)
    requires Tiles(gs, lo, hi) && j < |gs| && k < |gs|
    requires gs[j].start <= t < gs[j].start + gs[j].size
    requires gs[k].start <= t < gs[k].start + gs[k].size
    ensures j == k
  {
    if j < k {
      TilesOrdered(gs, lo, hi, j, k);
    } else if k < j {
      TilesOrdered(gs, lo, hi, k, j);
    }
  }

  /** The groups of the whole part: each tick in exactly one, their sizes adding up to the tick count. */
  lemma PartTiled(g: Grid, b: seq<seq<Entry>>, t: nat)
    requires ValidGrid(g) && |b| == g.total && t < g.total
    ensures SizeSum(Groups(g, b, 0)) == g.total
    ensures exists k :: 0 <= k < |Groups(g, b, 0)| && Groups(g, b, 0)[k].start <= t < Groups(g, b, 0)[k].start + Groups(g, b, 0)[k].size
  {
    GroupsTile(g, b, 0);
    TilesSize(Groups(g, b, 0), 0, g.total);
    TilesCover(Groups(g, b, 0), 0, g.total, t);
  }

  // --------------------------------------------------------------------- text

  /** The texts a run of groups picks from a per-tick table, one per group by its first tick. */
  function Picked(texts: seq<string>, gs: seq<Group>): string
    requires forall k :: 0 <= k < |gs| ==> gs[k].start < |texts|
  {
    if |gs| == 0 then [] else texts[gs[0].start] + Picked(texts, gs[1..])
  }

  /** The scan from tick i appends, for each group it reaches, that group's entry of the table. */
  lemma {:induction false} ScanPicksGroups(g: Grid, b: seq<seq<Entry>>, i: nat, acc: string, texts: seq<string>)
    requires ValidGrid(g) && |b| == g.total && i <= g.total && |texts| == g.total
    ensures ScanFrom(g, b, i, acc, texts) == acc + Picked(texts, Groups(g, b, i))
    decreases g.total - i
  {
    var gs := Groups(g, b, i);
    if i == g.total {
      assert gs == [];
    } else {
      var grp := GroupAt(g, b, i);
      var rest := Groups(g, b, i + grp.size);
      ScanPicksGroups(g, b, i + grp.size, acc + texts[i], texts);
      assert gs[0] == grp && gs[1..] == rest;
      assert Picked(texts, gs) == texts[i] + Picked(texts, rest);
    }
  }

  /** Picking from the table of group texts gives the text of the groups. */
  lemma {:induction false} PickedGroupTexts(g: Grid, b: seq<seq<Entry>>, gs: seq<Group>)
    requires ValidGrid(g) && |b| == g.total
    requires forall k :: 0 <= k < |gs| ==> gs[k].start < g.total && gs[k] == GroupAt(g, b, gs[k].start)
    ensures Picked(TickTexts(g, b), gs) == GroupsText(g, b, gs)
    decreases |gs|
  {
    if |gs| > 0 {
      PickedGroupTexts(g, b, gs[1..]);
    }
  }

  /** The scan from tick i appends the text of each group it reaches, in order. */
  lemma ScanWritesGroups(g: Grid, b: seq<seq<Entry>>, i: nat, acc: string)
    requires ValidGrid(g) && |b| == g.total && i <= g.total
    ensures ScanFrom(g, b, i, acc, TickTexts(g, b)) == acc + GroupsText(g, b, Groups(g, b, i))
  {
    ScanPicksGroups(g, b, i, acc, TickTexts(g, b));
    GroupsTile(g, b, i);
    PickedGroupTexts(g, b, Groups(g, b, i));
  }

  /** The bar's text is the text of its groups, in order, with the blank lines collapsed. */
  lemma ScanTextIsGroupsText(g: Grid, b: seq<seq<Entry>>)
    requires ValidGrid(g) && |b| == g.total
    ensures ScanText(g, b) == Collapse(GroupsText(g, b, Groups(g, b, 0)))
  {
    ScanWritesGroups(g, b, 0, []);
    assert [] + GroupsText(g, b, Groups(g, b, 0)) == GroupsText(g, b, Groups(g, b, 0));
  }

  // ---------------------------------------------------------------- durations

  /** A single tick written as the grid's own note value. */
  lemma SingleTickLength(m: real, mu: real, w: real, t: real)
    requires m > 0.0 && mu > 0.0
    requires w == (1.0 / m) / mu && t == 1.0 / (m * mu)
    ensures w == 1.0 * t
  {
  }

  /** n merged ticks written as the merged value, dotted when the value was scaled by 3/2. */
  lemma MergedTicksLength(m: real, n: real, mu: real, dot: real, scaled: bool, v: real, w: real, t: real)
    requires m > 0.0 && n > 0.0 && mu > 0.0 && (dot == 1.0 || dot == 3.0 / 2.0)
    requires scaled || (mu == 1.0 && dot == 1.0)
    requires v == ScaledValue(m, n, mu, dot, scaled) && t == 1.0 / (m * mu)
    requires w == if dot == 1.0 then 1.0 / v else 3.0 / (2.0 * v)
    ensures Spans(w, n, t)
  {
    assert v == m / n * mu * dot;
    assert v * n == m * mu * dot;
  }

  /** A group's token is written to last exactly the ticks the group covers. */
  predicate LastsItsTicks(g: Grid, grp: Group) {
    Spans(WrittenLength(g, grp), grp.size as real, GridTick(g))
  }

  /** A length w is n ticks of length t. */
  predicate Spans(w: real, n: real, t: real) {
    w == n * t
  }

  /** A single tick of a tuplet, written as the grid's value under the `(p:q` marker. */
  lemma TupletTickLasts(g: Grid, grp: Group)
    requires grp.size == 1 && grp.measure == g.measure && g.tuplet.Some?
    ensures LastsItsTicks(g, grp)
  {
    var m, mu := g.measure as real, TupletMultiplier(g.tuplet);
    var w, t := WrittenLength(g, grp), GridTick(g);
    assert t == 1.0 / (m * mu);
    assert w == (1.0 / m) / mu;
    SingleTickLength(m, mu, w, t);
  }

  /** A single tick without a tuplet, written as the grid's value. */
  lemma PlainTickLasts(g: Grid, grp: Group)
    requires grp.size == 1 && grp.measure == g.measure && g.tuplet.None?
    ensures LastsItsTicks(g, grp)
  {
    var m := g.measure as real;
    assert GridTick(g) == 1.0 / (m * 1.0);
    assert WrittenLength(g, grp) == 1.0 / m;
  }

  /** A run of merged ticks, written as the merged value: dotted when the tuplet's q is a multiple of 3. */
  lemma MergedRunLasts(g: Grid, grp: Group)
    requires grp.size > 1 && grp.measure as real == MergedMeasure(g, grp.size)
    ensures LastsItsTicks(g, grp)
  {
    var m, n, v := g.measure as real, grp.size as real, grp.measure as real;
    var mu, dot := TupletMultiplier(g.tuplet), DotFactor(g.tuplet);
    var t, w := GridTick(g), WrittenLength(g, grp);
    assert t == 1.0 / (m * mu);
    assert (2 * grp.measure) as real == 2.0 * v;
    assert IsDotted(g, grp) <==> dot == 3.0 / 2.0;
    assert w == if dot == 1.0 then 1.0 / v else 3.0 / (2.0 * v);
    MergedTicksLength(m, n, mu, dot, g.tuplet.Some?, v, w, t);
  }

  /** A group holding its grid's value for one tick, or the merged value for more, is written to last its ticks. */
  lemma WrittenLengthOfGroup(g: Grid, grp: Group)
    requires grp.size >= 1
    requires grp.size == 1 ==> grp.measure == g.measure
    requires grp.size > 1 ==> grp.measure as real == MergedMeasure(g, grp.size)
    ensures LastsItsTicks(g, grp)
  {
    if grp.size > 1 {
      MergedRunLasts(g, grp);
    } else if g.tuplet.Some? {
      TupletTickLasts(g, grp);
    } else {
      PlainTickLasts(g, grp);
    }
  }

  /** The token of each group is written to last exactly the ticks it covers. */
  lemma GroupLength(g: Grid, b: seq<seq<Entry>>, i: nat)
    requires ValidGrid(g) && |b| == g.total && i < g.total
    ensures LastsItsTicks(g, GroupAt(g, b, i))
  {
    GroupAtStops(g, b, i);
    WrittenLengthOfGroup(g, GroupAt(g, b, i));
  }

  /** Two runs of ticks of the same length, one after the other. */
  lemma AddSpans(a: real, x: real, c: real, y: real, s: real, z: real, t: real)
    requires Spans(a, x, t) && Spans(c, y, t) && s == a + c && z == x + y
    ensures Spans(s, z, t)
  {
  }

  /** The groups from tick i on are written to last the rest of the part. */
  lemma {:induction false} GroupsLength(g: Grid, b: seq<seq<Entry>>, i: nat)
    requires ValidGrid(g) && |b| == g.total && i <= g.total
    ensures Spans(WrittenSum(g, Groups(g, b, i)), (g.total - i) as real, GridTick(g))
    decreases g.total - i
  {
    if i == g.total {
      assert Groups(g, b, i) == [];
    } else {
      var grp := GroupAt(g, b, i);
      GroupLength(g, b, i);
      GroupsLength(g, b, i + grp.size);
      var gs := Groups(g, b, i);
      assert gs[0] == grp && gs[1..] == Groups(g, b, i + grp.size);
      AddSpans(WrittenLength(g, grp), grp.size as real, WrittenSum(g, gs[1..]), (g.total - (i + grp.size)) as real,
               WrittenSum(g, gs), (g.total - i) as real, GridTick(g));
    }
  }

  /** The ticks of a part, each 1/(m mu) long, add up to partSize / measure. */
  lemma PartTicksLength(w: real, total: real, t: real, m: real, mu: real, partSize: real, measure: real)
    requires m > 0.0 && mu > 0.0 && measure > 0.0
    requires Spans(w, total, t) && t == 1.0 / (m * mu) && total == m * mu * partSize / measure
    ensures w == partSize / measure
  {
  }

  lemma PartTicksOf(m: Measure, tuplet: Option<Tuplet>, partSize: nat, measure: Measure)
    ensures PartTicks(m, tuplet, partSize, measure) == m as real * TupletMultiplier(tuplet) * partSize as real / measure as real
  {
  }

  lemma GridTickOf(g: Grid)
    ensures GridTick(g) == 1.0 / (g.measure as real * TupletMultiplier(g.tuplet))
  {
  }

  /** A length of total ticks on a part's grid is the length of the part. */
  lemma GridSpan(m: Measure, tuplet: Option<Tuplet>, partSize: nat, measure: Measure, total: nat, w: real, t: real)
    requires Spans(w, total as real, t) && t == 1.0 / (m as real * TupletMultiplier(tuplet))
    requires total as real == PartTicks(m, tuplet, partSize, measure)
    ensures w == partSize as real / measure as real
  {
    PartTicksOf(m, tuplet, partSize, measure);
    PartTicksLength(w, total as real, t, m as real, TupletMultiplier(tuplet), partSize as real, measure as real);
  }

  /** The ticks of a part's grid, each GridTick(g) long, add up to the part. */
  lemma GridSpansPart(g: Grid, w: real)
    requires Spans(w, g.total as real, GridTick(g))
    requires g.total as real == PartTicks(g.measure, g.tuplet, g.partSize, g.barMeasure)
    ensures w == g.partSize as real / g.barMeasure as real
  {
    GridTickOf(g);
    GridSpan(g.measure, g.tuplet, g.partSize, g.barMeasure, g.total, w, GridTick(g));
  }

  /** The groups of the whole part are written to last all its ticks. */
  lemma AllGroupsLength(g: Grid, b: seq<seq<Entry>>)
    requires ValidGrid(g) && |b| == g.total
    ensures Spans(WrittenSum(g, Groups(g, b, 0)), g.total as real, GridTick(g))
  {
    GroupsLength(g, b, 0);
    assert g.total - 0 == g.total;
  }

  /** The tokens written over a grid last as long as the part the grid was made for. */
  lemma GridFillsPart(g: Grid, b: seq<seq<Entry>>)
    requires ValidGrid(g) && |b| == g.total
    requires g.total as real == PartTicks(g.measure, g.tuplet, g.partSize, g.barMeasure)
    ensures WrittenSum(g, Groups(g, b, 0)) == g.partSize as real / g.barMeasure as real
  {
    AllGroupsLength(g, b);
    GridSpansPart(g, WrittenSum(g, Groups(g, b, 0)));
  }

  /** The tokens of a bar part are written to last exactly the part: partSize beats of 1/measure. */
  lemma BarFillsPart(notes: seq<Note>, resolved: seq<Option<Fragment>>, partSize: nat, partOffset: nat, measure: Measure)
    requires partSize > 0 && |resolved| == |notes|
    requires PartGrid(notes, partSize, partOffset, measure).Success?
    ensures var (g, adjusted) := PartGrid(notes, partSize, partOffset, measure).value;
            WrittenSum(g, Groups(g, Buckets(g, adjusted, resolved), 0)) == partSize as real / measure as real
  {
    var (g, adjusted) := PartGrid(notes, partSize, partOffset, measure).value;
    GridFillsPart(g, Buckets(g, adjusted, resolved));
  }
}
