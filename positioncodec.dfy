/**
 * positionFromString and positionToString. The position pattern is
 *   bar [ "." offset "/" measure [ "*" p ":" q ] ] [ "~" duration ]
 * with every field a run of decimal digits. It is matched by a hand-written
 * scanner that yields the fields as text, and the fields are then read with
 * the strict integer parse and checked against the legal subdivisions and
 * tuplets.
 */
module PositionCodec {
  import opened Wrappers
  import opened NotedTypes
  import opened Numerals

  datatype TupletText = TupletText(p: string, q: string)

  datatype GridText = GridText(offset: string, measure: string, tuplet: Option<TupletText>)

  /** The fields of a position as they appear in the text. */
  datatype PositionText = PositionText(bar: string, grid: Option<GridText>, duration: Option<string>)

  /** A non-empty run of digits: what \d+ matches. */
  predicate Numeral(s: string) {
    |s| > 0 && AllDigits(s)
  }

  predicate WellFormedGrid(g: GridText) {
    && Numeral(g.offset) && Numeral(g.measure)
    && (g.tuplet.Some? ==> Numeral(g.tuplet.value.p) && Numeral(g.tuplet.value.q))
  }

  predicate WellFormed(f: PositionText) {
    && Numeral(f.bar)
    && (f.grid.Some? ==> WellFormedGrid(f.grid.value))
    && (f.duration.Some? ==> Numeral(f.duration.value))
  }

  /** A separator, a field and the text that follows. */
  function Sep(c: char, field: string, tail: string): string {
    [c] + (field + tail)
  }

  function TupletRender(t: Option<TupletText>, tail: string): string {
    match t
    case None => tail
    case Some(tt) => Sep('*', tt.p, Sep(':', tt.q, tail))
  }

  function GridRender(g: Option<GridText>, tail: string): string {
    match g
    case None => tail
    case Some(gt) => Sep('.', gt.offset, Sep('/', gt.measure, TupletRender(gt.tuplet, tail)))
  }

  function DurationRender(d: Option<string>): string {
    match d
    case None => []
    case Some(ds) => Sep('~', ds, [])
  }

  /** The text a set of fields spells. */
  function Render(f: PositionText): string {
    f.bar + GridRender(f.grid, DurationRender(f.duration))
  }

  /** The optional tuplet group, and the text after it. */
  function MatchTuplet(r: string): Option<(Option<TupletText>, string)> {
    if |r| > 0 && r[0] == '*' then
      var (p, r1) := SplitDigits(r[1..]);
      if |p| == 0 || |r1| == 0 || r1[0] != ':' then None
      else
        var (q, r2) := SplitDigits(r1[1..]);
        if |q| == 0 then None else Some((Some(TupletText(p, q)), r2))
    else Some((None, r))
  }

  /** The optional offset/measure group with its tuplet, and the text after it. */
  function MatchGrid(r: string): Option<(Option<GridText>, string)> {
    if |r| > 0 && r[0] == '.' then
      var (o, r1) := SplitDigits(r[1..]);
      if |o| == 0 || |r1| == 0 || r1[0] != '/' then None
      else
        var (m, r2) := SplitDigits(r1[1..]);
        if |m| == 0 then None
        else
          match MatchTuplet(r2)
          case None => None
          case Some((t, r3)) => Some((Some(GridText(o, m, t)), r3))
    else Some((None, r))
  }

  /** The optional duration group, which must end the text. */
  function MatchDuration(r: string): Option<Option<string>> {
    if |r| == 0 then Some(None)
    else if r[0] == '~' then
      var (d, r1) := SplitDigits(r[1..]);
      if |d| > 0 && |r1| == 0 then Some(Some(d)) else None
    else None
  }

  /** POSITION_REGEX: the fields of s, or None when s is not a position. */
  function MatchPosition(s: string): Option<PositionText> {
    var (b, r1) := SplitDigits(s);
    if |b| == 0 then None
    else
      match MatchGrid(r1)
      case None => None
      case Some((g, r2)) =>
        match MatchDuration(r2)
        case None => None
        case Some(d) => Some(PositionText(b, g, d))
  }

  /** What may follow a digit run: nothing, or a character that is not a digit. */
  predicate Stops(tail: string) {
    tail == [] || !IsDigit(tail[0])
  }

  /** After a separator, the digit run is the field. */
  lemma SplitAfterSep(c: char, field: string, tail: string)
    requires AllDigits(field) && Stops(tail)
    ensures |Sep(c, field, tail)| > 0 && Sep(c, field, tail)[0] == c
    ensures SplitDigits(Sep(c, field, tail)[1..]) == (field, tail)
  {
    assert Sep(c, field, tail)[1..] == field + tail;
    SplitDigitsOf(field, tail);
  }

  /** A separator followed by a digit run and the rest is that Sep. */
  lemma SepOfSplit(r: string)
    requires |r| > 0
    ensures r == Sep(r[0], SplitDigits(r[1..]).0, SplitDigits(r[1..]).1)
  {
    assert r == [r[0]] + r[1..];
  }

  /** What may follow the grid group: the duration group or the end. */
  predicate AfterGrid(rest: string) {
    rest == [] || rest[0] == '~'
  }

  lemma MatchTupletRendered(t: Option<TupletText>, rest: string)
    requires t.Some? ==> Numeral(t.value.p) && Numeral(t.value.q)
    requires AfterGrid(rest)
    ensures MatchTuplet(TupletRender(t, rest)) == Some((t, rest))
  {
    if t.Some? {
      var tail := Sep(':', t.value.q, rest);
      SplitAfterSep(':', t.value.q, rest);
      SplitAfterSep('*', t.value.p, tail);
    }
  }

  lemma MatchGridRendered(g: Option<GridText>, rest: string)
    requires g.Some? ==> WellFormedGrid(g.value)
    requires AfterGrid(rest)
    ensures MatchGrid(GridRender(g, rest)) == Some((g, rest))
  {
    if g.Some? {
      var tail := TupletRender(g.value.tuplet, rest);
      var mid := Sep('/', g.value.measure, tail);
      SplitAfterSep('/', g.value.measure, tail);
      SplitAfterSep('.', g.value.offset, mid);
      MatchTupletRendered(g.value.tuplet, rest);
    }
  }

  lemma MatchDurationRendered(d: Option<string>)
    requires d.Some? ==> Numeral(d.value)
    ensures MatchDuration(DurationRender(d)) == Some(d)
  {
    if d.Some? {
      SplitAfterSep('~', d.value, []);
    }
  }

  /** The scanner reads back the fields of every text it describes. */
  lemma MatchRendered(f: PositionText)
    requires WellFormed(f)
    ensures MatchPosition(Render(f)) == Some(f)
  {
    var after := GridRender(f.grid, DurationRender(f.duration));
    SplitDigitsOf(f.bar, after);
    MatchGridRendered(f.grid, DurationRender(f.duration));
    MatchDurationRendered(f.duration);
  }

  lemma MatchedTuplet(r: string)
    requires MatchTuplet(r).Some?
    ensures (MatchTuplet(r).value.0.Some? ==>
               Numeral(MatchTuplet(r).value.0.value.p) && Numeral(MatchTuplet(r).value.0.value.q))
    ensures r == TupletRender(MatchTuplet(r).value.0, MatchTuplet(r).value.1)
  {
    if |r| > 0 && r[0] == '*' {
      SepOfSplit(r);
      SepOfSplit(SplitDigits(r[1..]).1);
    }
  }

  lemma MatchedGrid(r: string)
    requires MatchGrid(r).Some?
    ensures MatchGrid(r).value.0.Some? ==> WellFormedGrid(MatchGrid(r).value.0.value)
    ensures r == GridRender(MatchGrid(r).value.0, MatchGrid(r).value.1)
  {
    if |r| > 0 && r[0] == '.' {
      SepOfSplit(r);
      var r1 := SplitDigits(r[1..]).1;
      SepOfSplit(r1);
      MatchedTuplet(SplitDigits(r1[1..]).1);
    }
  }

  lemma MatchedDuration(r: string)
    requires MatchDuration(r).Some?
    ensures MatchDuration(r).value.Some? ==> Numeral(MatchDuration(r).value.value)
    ensures r == DurationRender(MatchDuration(r).value)
  {
    if |r| > 0 {
      SepOfSplit(r);
    }
  }

  /** Whatever the scanner accepts is a well-formed text of its fields. */
  lemma MatchedIsRendered(s: string)
    requires MatchPosition(s).Some?
    ensures WellFormed(MatchPosition(s).value)
    ensures Render(MatchPosition(s).value) == s
  {
    var r1 := SplitDigits(s).1;
    MatchedGrid(r1);
    MatchedDuration(MatchGrid(r1).value.1);
  }

  /** The scanner matches exactly the texts of the position pattern. */
  lemma MatchPositionIsPattern(s: string, f: PositionText)
    ensures MatchPosition(s) == Some(f) <==> WellFormed(f) && s == Render(f)
  {
    if MatchPosition(s) == Some(f) {
      MatchedIsRendered(s);
    }
    if WellFormed(f) && s == Render(f) {
      MatchRendered(f);
    }
  }

  /** isTuplet, returning the ratio as a Tuplet. */
  function AsTuplet(p: nat, q: nat): (r: Option<Tuplet>)
    ensures r.Some? <==> IsTuplet(Ratio(p, q))
    ensures r.Some? ==> r.value == Ratio(p, q)
  {
    var t := Ratio(p, q);
    if t in {Ratio(3, 2), Ratio(5, 4), Ratio(6, 4), Ratio(7, 4), Ratio(5, 3), Ratio(7, 8)} then
      var tu: Tuplet := t;
      Some(tu)
    else None
  }

  /**
   * The position the fields spell, reading the fields in the order the code
   * does: bar, offset, measure (then its membership), p, q (then the tuplet).
   */
  function PositionOfText(input: string, f: PositionText): Result<Position, Error> {
    var bar :- ParseInteger(f.bar);
    match f.grid
    case None => Success(BarPos(bar))
    case Some(g) =>
      var offset :- ParseInteger(g.offset);
      var mv :- ParseInteger(g.measure);
      var m := MeasureOf(mv);
      if m.None? then Failure(InvalidMeasureFormat(input))
      else
        match g.tuplet
        case None => Success(RegularPos(bar, offset, m.value, None))
        case Some(tt) =>
          var p :- ParseInteger(tt.p);
          var q :- ParseInteger(tt.q);
          var t := AsTuplet(p, q);
          if t.None? then Failure(InvalidTupletFormat(input))
          else Success(RegularPos(bar, offset, m.value, Some(t.value)))
  }

  /** positionFromString. A trailing duration is matched and ignored. */
  function PositionFromString(s: string): Result<Position, Error> {
    match MatchPosition(s)
    case None => Failure(InvalidPositionFormat(s))
    case Some(f) => PositionOfText(s, f)
  }

  /** The fields positionToString writes for a position. */
  function TextOf(p: Position): (f: PositionText)
    ensures WellFormed(f) && f.duration.None?
  {
    match p
    case BarPos(bar) => PositionText(NatToString(bar), None, None)
    case RegularPos(bar, offset, measure, tuplet) =>
      var t := match tuplet
        case None => None
        case Some(tu) => Some(TupletText(NatToString(tu.p as nat), NatToString(tu.q as nat)));
      PositionText(NatToString(bar), Some(GridText(NatToString(offset), NatToString(measure as nat), t)), None)
  }

  /** positionToString. */
  function PositionToString(p: Position): string {
    Render(TextOf(p))
  }

  /** Reading the printed fields gives the position back. */
  lemma ReadTextOf(input: string, p: Position)
    ensures PositionOfText(input, TextOf(p)) == Success(p)
  {
    ParsePrinted(p.bar);
    if p.RegularPos? {
      ParsePrinted(p.offset);
      ParsePrinted(p.measure as nat);
      if p.tuplet.Some? {
        ParsePrinted(p.tuplet.value.p as nat);
        ParsePrinted(p.tuplet.value.q as nat);
      }
    }
  }

  /** Every position prints to a text that parses back to it. */
  lemma PositionRoundTrip(p: Position)
    ensures PositionFromString(PositionToString(p)) == Success(p)
  {
    MatchRendered(TextOf(p));
    ReadTextOf(PositionToString(p), p);
  }

  /** The printed tuplet of a parsed one is its text. */
  lemma TupletTextOfParsed(tt: TupletText, t: Tuplet)
    requires ParseInteger(tt.p).Success? && ParseInteger(tt.q).Success?
    requires t == Ratio(ParseInteger(tt.p).value, ParseInteger(tt.q).value)
    ensures TupletText(NatToString(t.p as nat), NatToString(t.q as nat)) == tt
  {
    ParsedPrintsBack(tt.p, t.p as nat);
    ParsedPrintsBack(tt.q, t.q as nat);
  }

  /** The printed fields of a parsed position are the fields it was read from. */
  lemma TextOfParsed(input: string, f: PositionText, p: Position)
    requires f.duration.None?
    requires PositionOfText(input, f) == Success(p)
    ensures TextOf(p) == f
  {
    ParsedPrintsBack(f.bar, p.bar);
    if f.grid.Some? {
      var g := f.grid.value;
      ParsedPrintsBack(g.offset, p.offset);
      ParsedPrintsBack(g.measure, p.measure as nat);
      if g.tuplet.Some? {
        TupletTextOfParsed(g.tuplet.value, p.tuplet.value);
      }
    }
  }

  /** The strict integers make the printer the inverse of the parser on texts without a duration. */
  lemma ParsedPositionPrintsBack(s: string)
    requires PositionFromString(s).Success?
    requires MatchPosition(s).value.duration.None?
    ensures PositionToString(PositionFromString(s).value) == s
  {
    MatchedIsRendered(s);
    TextOfParsed(s, MatchPosition(s).value, PositionFromString(s).value);
  }
}
