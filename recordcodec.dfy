/**
 * noteFromString/noteToString, meterChangeFromString/meterChangeToString and
 * bpmChangeFromString/bpmChangeToString. Each pattern is matched by a
 * hand-written scanner; note values, types and attributes are read up to the
 * first separator, which is what the patterns do when those texts avoid the
 * separators : @ ? &.
 */
module RecordCodec {
  import opened Wrappers
  import opened NotedTypes
  import opened Numerals
  import opened Texts
  import opened PositionCodec

  /** The characters JavaScript's `.` does not match. */
  predicate LineBreak(c: char) {
    c == '\n' || c == '\r' || c == '\U{2028}' || c == '\U{2029}'
  }

  predicate NoLineBreak(s: string) {
    forall i :: 0 <= i < |s| ==> !LineBreak(s[i])
  }

  predicate Separator(c: char) {
    c == ':' || c == '@' || c == '?' || c == '&'
  }

  /** A value, type or attribute the printer writes and the parser reads back unchanged. */
  predicate PlainText(s: string) {
    |s| > 0 && forall i :: 0 <= i < |s| ==> !Separator(s[i]) && !LineBreak(s[i])
  }

  // ---------------------------------------------------------------- notes

  /**
   * The value and the optional type before the '@': the value is the shortest
   * non-empty prefix after which either nothing or ':' and a non-empty type
   * follows (the lazy `(.+?)(?::(.+))?`).
   */
  function SplitHead(head: string): (r: Option<(string, Option<string>)>)
    ensures r.Some? ==> |r.value.0| > 0
  {
    if |head| == 0 || !NoLineBreak(head) then None
    else
      var c := FirstIndex(head[1..], ':');
      if c == -1 || c + 1 >= |head| - 1 then Some((head, None))
      else Some((head[..c + 1], Some(head[c + 2..])))
  }

  /** The attribute list: split on '&' with the empty pieces dropped. */
  function Attributes(text: string): seq<string> {
    NonEmpty(Split(text, '&'))
  }

  /** The text after the '@': the position up to the first '?', and the attribute text after it. */
  function SplitBody(tail: string): (string, Option<string>) {
    var qm := FirstIndex(tail, '?');
    if qm == -1 then (tail, None) else (tail[..qm], Some(tail[qm + 1..]))
  }

  /** The checks of NOTE_REGEX on the parts, then the fields read as positionFromString and parseInteger read them. */
  function NoteOfParts(s: string, headText: string, posText: string, attrText: Option<string>): Result<Note, Error> {
    var head := SplitHead(headText);
    var fields := MatchPosition(posText);
    if head.None? || fields.None? then Failure(InvalidRecordFormat(s))
    else if fields.value.grid.None? && fields.value.duration.Some? then Failure(InvalidRecordFormat(s))
    else if attrText.Some? && (|attrText.value| == 0 || !NoLineBreak(attrText.value)) then Failure(InvalidRecordFormat(s))
    else
      var position :- PositionOfText(posText, fields.value);
      var duration :- ReadDuration(fields.value.duration);
      Success(Note(head.value.0, head.value.1, position, duration, AttributeList(attrText)))
  }

  function ReadDuration(d: Option<string>): Result<Option<nat>, Error> {
    match d
    case None => Success(None)
    case Some(t) => var n :- ParseInteger(t); Success(Some(n))
  }

  function AttributeList(attrText: Option<string>): Option<seq<string>> {
    match attrText
    case None => None
    case Some(t) => Some(Attributes(t))
  }

  /**
   * noteFromString, split at the first '@' and then at the first '?'; the
   * pattern's backtracking to a later '@' is not followed.
   */
  function NoteFromString(s: string): Result<Note, Error> {
    var at := FirstIndex(s, '@');
    if at == -1 then Failure(InvalidRecordFormat(s))
    else
      var (posText, attrText) := SplitBody(s[at + 1..]);
      NoteOfParts(s, s[..at], posText, attrText)
  }

  function KindRender(kind: Option<string>): string {
    match kind
    case None => []
    case Some(k) => [':'] + k
  }

  /** The text before the '@'. */
  function NoteHead(n: Note): string {
    n.value + KindRender(n.kind)
  }

  /** The duration is written only when the position has a subdivision. */
  function DurationText(n: Note): Option<string> {
    if n.position.RegularPos? && n.duration.Some? then Some(NatToString(n.duration.value)) else None
  }

  /** The position fields with the duration the printer appends to them. */
  function NoteFields(n: Note): PositionText {
    TextOf(n.position).(duration := DurationText(n))
  }

  /** The attributes are written sorted and joined, and only when there are any. */
  function AttributeText(attributes: Option<seq<string>>): Option<string> {
    if attributes.Some? && |attributes.value| > 0 then Some(Join(SortStrings(attributes.value), '&')) else None
  }

  function QueryRender(text: Option<string>): string {
    match text
    case None => []
    case Some(t) => ['?'] + t
  }

  /** The text after the '@'. */
  function NoteBody(n: Note): string {
    Render(NoteFields(n)) + QueryRender(AttributeText(n.attributes))
  }

  /** noteToString. */
  function NoteToString(n: Note): string {
    NoteHead(n) + ['@'] + NoteBody(n)
  }

  /** The note noteToString describes: duration kept only on a subdivided position, attributes sorted, none when empty. */
  function Normalized(n: Note): Note {
    var duration := if n.position.RegularPos? then n.duration else None;
    var attributes := if n.attributes.Some? && |n.attributes.value| > 0 then Some(SortStrings(n.attributes.value)) else None;
    Note(n.value, n.kind, n.position, duration, attributes)
  }

  predicate PlainNote(n: Note) {
    && PlainText(n.value)
    && (n.kind.Some? ==> PlainText(n.kind.value))
    && (n.attributes.Some? ==> forall i :: 0 <= i < |n.attributes.value| ==> PlainText(n.attributes.value[i]))
  }

  lemma PlainLacks(s: string, c: char)
    requires PlainText(s) && (Separator(c) || LineBreak(c))
    ensures c !in s
  {
  }

  lemma NumeralLacks(s: string, c: char)
    requires AllDigits(s) && !IsDigit(c)
    ensures c !in s
  {
  }

  lemma SepLacks(c: char, field: string, tail: string, x: char)
    requires x != c && x !in field && x !in tail
    ensures x !in Sep(c, field, tail)
  {
  }

  lemma TupletRenderLacks(t: Option<TupletText>, tail: string, x: char)
    requires t.Some? ==> Numeral(t.value.p) && Numeral(t.value.q)
    requires !IsDigit(x) && x != '*' && x != ':' && x !in tail
    ensures x !in TupletRender(t, tail)
  {
    if t.Some? {
      NumeralLacks(t.value.p, x);
      NumeralLacks(t.value.q, x);
      SepLacks(':', t.value.q, tail, x);
      SepLacks('*', t.value.p, Sep(':', t.value.q, tail), x);
    }
  }

  /** A position text has only digits and the characters . / * : ~ in it. */
  lemma RenderLacks(f: PositionText, x: char)
    requires WellFormed(f)
    requires !IsDigit(x) && x != '.' && x != '/' && x != '*' && x != ':' && x != '~'
    ensures x !in Render(f)
  {
    var d := DurationRender(f.duration);
    if f.duration.Some? {
      NumeralLacks(f.duration.value, x);
      SepLacks('~', f.duration.value, [], x);
    }
    if f.grid.Some? {
      var g := f.grid.value;
      TupletRenderLacks(g.tuplet, d, x);
      NumeralLacks(g.offset, x);
      NumeralLacks(g.measure, x);
      SepLacks('/', g.measure, TupletRender(g.tuplet, d), x);
      SepLacks('.', g.offset, Sep('/', g.measure, TupletRender(g.tuplet, d)), x);
    }
    NumeralLacks(f.bar, x);
  }

  lemma NoLineBreakOfPlain(s: string)
    requires PlainText(s)
    ensures NoLineBreak(s)
  {
  }

  /** The head of a printed note splits back into its value and type. */
  lemma SplitPrintedHead(n: Note)
    requires PlainNote(n)
    ensures SplitHead(NoteHead(n)) == Some((n.value, n.kind))
  {
    var v := n.value;
    PlainLacks(v, ':');
    assert ':' !in v[1..];
    if n.kind.Some? {
      assert NoteHead(n) == v + [':'] + n.kind.value;
      SplitKindHead(v, n.kind.value);
    } else {
      NoLineBreakOfPlain(v);
      assert NoteHead(n) == v;
    }
  }

  lemma SplitKindHead(v: string, k: string)
    requires PlainText(v) && PlainText(k) && ':' !in v[1..]
    ensures SplitHead(v + [':'] + k) == Some((v, Some(k)))
  {
    var h := v + [':'] + k;
    assert h[1..] == v[1..] + [':'] + k;
    FirstIndexAfter(v[1..], ':', k);
    assert h[..|v|] == v;
    assert h[|v| + 1..] == k;
    forall i | 0 <= i < |h| ensures !LineBreak(h[i]) {
      if i < |v| {
        assert h[i] == v[i];
      } else if i > |v| {
        assert h[i] == k[i - |v| - 1];
      }
    }
  }

  /** The '@' of a printed note is the first one. */
  lemma SplitPrintedNote(n: Note)
    requires PlainNote(n)
    ensures var s := NoteToString(n);
      && FirstIndex(s, '@') == |NoteHead(n)|
      && s[..|NoteHead(n)|] == NoteHead(n)
      && s[|NoteHead(n)| + 1..] == NoteBody(n)
  {
    var h := NoteHead(n);
    PlainLacks(n.value, '@');
    if n.kind.Some? {
      PlainLacks(n.kind.value, '@');
    }
    assert '@' !in h;
    FirstIndexAfter(h, '@', NoteBody(n));
    var s := NoteToString(n);
    assert s[..|h|] == h;
    assert s[|h| + 1..] == NoteBody(n);
  }

  /** The attributes of a printed note split back into the sorted list. */
  lemma AttributesReadBack(a: seq<string>)
    requires |a| > 0
    requires forall i :: 0 <= i < |a| ==> PlainText(a[i])
    ensures |Join(SortStrings(a), '&')| > 0 && NoLineBreak(Join(SortStrings(a), '&'))
    ensures Attributes(Join(SortStrings(a), '&')) == SortStrings(a)
  {
    var r := SortStrings(a);
    forall i | 0 <= i < |r| ensures PlainText(r[i]) && '&' !in r[i] {
      SortedMembers(a, i);
      var j :| 0 <= j < |a| && a[j] == r[i];
      PlainLacks(r[i], '&');
    }
    JoinShape(r);
    SplitJoin(r, '&');
    NonEmptyKeepsFull(r);
  }

  /** The join of plain, non-empty pieces is non-empty and has no line break. */
  lemma {:induction false} JoinShape(xs: seq<string>)
    requires |xs| > 0
    requires forall i :: 0 <= i < |xs| ==> PlainText(xs[i])
    ensures |Join(xs, '&')| > 0 && NoLineBreak(Join(xs, '&'))
    decreases |xs|
  {
    if |xs| > 1 {
      JoinShape(xs[1..]);
      var j := xs[0] + ['&'] + Join(xs[1..], '&');
      forall i | 0 <= i < |j| ensures !LineBreak(j[i]) {
        if i < |xs[0]| {
          assert j[i] == xs[0][i];
        } else if i > |xs[0]| {
          assert j[i] == Join(xs[1..], '&')[i - |xs[0]| - 1];
        }
      }
    }
  }

  /** A body whose position part has no '?' splits at the '?' the printer writes. */
  lemma SplitBodyOf(p: string, text: Option<string>)
    requires '?' !in p
    ensures SplitBody(p + QueryRender(text)) == (p, text)
  {
    if text.Some? {
      FirstIndexAfter(p, '?', text.value);
      var b := p + ['?'] + text.value;
      assert p + QueryRender(text) == b;
      assert b[..|p|] == p;
      assert b[|p| + 1..] == text.value;
    } else {
      assert p + [] == p;
    }
  }

  /** The body of a printed note splits into its position text and attribute text. */
  lemma SplitPrintedBody(n: Note)
    ensures SplitBody(NoteBody(n)) == (Render(NoteFields(n)), AttributeText(n.attributes))
  {
    RenderLacks(NoteFields(n), '?');
    SplitBodyOf(Render(NoteFields(n)), AttributeText(n.attributes));
  }

  /** The position fields of a printed note read back as its position. */
  lemma FieldsReadBack(n: Note)
    ensures MatchPosition(Render(NoteFields(n))) == Some(NoteFields(n))
    ensures NoteFields(n).grid.None? ==> NoteFields(n).duration.None?
    ensures PositionOfText(Render(NoteFields(n)), NoteFields(n)) == Success(n.position)
  {
    MatchRendered(NoteFields(n));
    ReadTextOf(Render(NoteFields(n)), n.position);
  }

  /** The printed duration reads back as the duration the printer kept. */
  lemma DurationReadsBack(n: Note)
    ensures ReadDuration(DurationText(n)) == Success(Normalized(n).duration)
  {
    if n.position.RegularPos? && n.duration.Some? {
      ParsePrinted(n.duration.value);
    }
  }

  /** The printed attributes read back as the attributes the printer kept. */
  lemma AttributeListReadsBack(n: Note)
    requires PlainNote(n)
    ensures AttributeList(AttributeText(n.attributes)) == Normalized(n).attributes
    ensures AttributeText(n.attributes).Some? ==>
              |AttributeText(n.attributes).value| > 0 && NoLineBreak(AttributeText(n.attributes).value)
  {
    if n.attributes.Some? && |n.attributes.value| > 0 {
      AttributesReadBack(n.attributes.value);
    }
  }

  /** The printed parts of a plain note read back as the note the printer described. */
  lemma PartsReadBack(s: string, n: Note)
    requires PlainNote(n)
    ensures NoteOfParts(s, NoteHead(n), Render(NoteFields(n)), AttributeText(n.attributes)) == Success(Normalized(n))
  {
    SplitPrintedHead(n);
    FieldsReadBack(n);
    DurationReadsBack(n);
    AttributeListReadsBack(n);
  }

  /** Every plain note prints to a text that parses back to what the printer described. */
  lemma NoteRoundTrip(n: Note)
    requires PlainNote(n)
    ensures NoteFromString(NoteToString(n)) == Success(Normalized(n))
  {
    var s := NoteToString(n);
    SplitPrintedNote(n);
    SplitPrintedBody(n);
    PartsReadBack(s, n);
  }

  // ---------------------------------------------------------- meter changes

  /** A number as it appears in the text: digits, optionally a point and more digits. */
  datatype DecimalText = DecimalText(whole: string, frac: Option<string>)

  function DecimalRender(t: DecimalText, tail: string): string {
    match t.frac
    case None => t.whole + tail
    case Some(f) => t.whole + Sep('.', f, tail)
  }

  /** \d+(?:\.\d+)? and the text after it. */
  function MatchDecimal(r: string): (m: Option<(DecimalText, string)>)
    ensures m.Some? ==> Numeral(m.value.0.whole) && (m.value.0.frac.Some? ==> Numeral(m.value.0.frac.value))
  {
    var (w, r1) := SplitDigits(r);
    if |w| == 0 then None
    else if |r1| > 0 && r1[0] == '.' then
      var (f, r2) := SplitDigits(r1[1..]);
      if |f| == 0 then None else Some((DecimalText(w, Some(f)), r2))
    else Some((DecimalText(w, None), r1))
  }

  /** A keyword with an optional last letter, then '@' (`:meter?@`, `:bpm?@`); the text after the '@'. */
  function MatchKeyword(r: string, stem: string, last: char): Option<string> {
    if |r| >= |stem| && r[..|stem|] == stem then
      var r1 := r[|stem|..];
      if |r1| > 0 && r1[0] == '@' then Some(r1[1..])
      else if |r1| > 1 && r1[0] == last && r1[1] == '@' then Some(r1[2..])
      else None
    else None
  }

  const METER_STEM: string := ":mete"
  const BPM_STEM: string := ":bp"

  /** The keyword stem, the optional last letter, '@' and what follows. */
  function KeywordRender(stem: string, last: Option<char>, tail: string): string {
    match last
    case None => stem + (['@'] + tail)
    case Some(c) => stem + ([c] + (['@'] + tail))
  }

  lemma MatchKeywordRendered(stem: string, last: Option<char>, letter: char, tail: string)
    requires letter != '@' && (last.None? || last == Some(letter))
    ensures MatchKeyword(KeywordRender(stem, last, tail), stem, letter) == Some(tail)
  {
    var r := KeywordRender(stem, last, tail);
    var x := r[|stem|..];
    assert r[..|stem|] == stem;
    if last.None? {
      assert x == ['@'] + tail;
      assert x[1..] == tail;
    } else {
      assert x == [letter] + (['@'] + tail);
      assert x[1] == '@';
      assert x[2..] == tail;
    }
  }

  /** The fields of a meter change text. */
  datatype MeterChangeText = MeterChangeText(beats: DecimalText, measure: string, bar: string)

  /** METER_CHANGE_REGEX. */
  function MatchMeterChange(s: string): Option<MeterChangeText> {
    match MatchDecimal(s)
    case None => None
    case Some((beats, r1)) =>
      if |r1| == 0 || r1[0] != '/' then None
      else
        var (m, r2) := SplitDigits(r1[1..]);
        if |m| == 0 then None
        else
          match MatchKeyword(r2, METER_STEM, 'r')
          case None => None
          case Some(bar) => if Numeral(bar) then Some(MeterChangeText(beats, m, bar)) else None
  }

  /** parseNumber on a matched number: the text must be the one String(value) prints. */
  predicate StrictDecimal(t: DecimalText) {
    && Canonical(t.whole)
    && (t.frac.Some? ==> Numeral(t.frac.value) && t.frac.value[|t.frac.value| - 1] != '0')
  }

  /**
   * meterChangeFromString. A meter whose beats are not a whole number passes
   * every check of meterChangeFromString and is returned there; here, where
   * beats are whole numbers, it is refused with UnsupportedMeter instead.
   */
  function MeterChangeFromString(s: string): Result<MeterChange, Error> {
    match MatchMeterChange(s)
    case None => Failure(InvalidMeterChangeFormat(s))
    case Some(f) =>
      if !StrictDecimal(f.beats) then Failure(InvalidNumber(DecimalRender(f.beats, [])))
      else
        var mv :- ParseInteger(f.measure);
        var m := MeasureOf(mv);
        if m.None? then Failure(InvalidMeterFormat(s))
        else
          var bar :- ParseInteger(f.bar);
          if f.beats.frac.Some? then Failure(UnsupportedMeter(s))
          else Success(MeterChange(Meter(DigitsValue(f.beats.whole), m.value), BarPos(bar)))
  }

  /** A meter change text, with or without the last letter of the keyword. */
  function MeterChangeWith(mc: MeterChange, last: Option<char>): string {
    NatToString(mc.meter.beats) + Sep('/', NatToString(mc.meter.measure as nat), KeywordRender(METER_STEM, last, PositionToString(mc.position)))
  }

  /** meterChangeToString: beats, '/', the subdivision, ":meter@" and the bar. */
  function MeterChangeToString(mc: MeterChange): string {
    MeterChangeWith(mc, Some('r'))
  }

  /** The bar of a meter change is read by positionFromString, which gives a bar position. */
  lemma BarTextIsBarPosition(bar: string)
    requires Numeral(bar)
    ensures PositionFromString(bar) == match ParseInteger(bar)
                                       case Success(b) => Success(BarPos(b))
                                       case Failure(e) => Failure(e)
  {
    SplitDigitsOf(bar, []);
    assert bar + [] == bar;
  }

  /** A bar position prints as its bar number. */
  lemma BarPositionText(p: BarPosition)
    ensures PositionToString(p) == NatToString(p.bar)
  {
    assert NatToString(p.bar) + [] == NatToString(p.bar);
  }

  /** The scanner splits a meter change text into its fields. */
  lemma MatchMeterChangeRendered(beats: string, measure: string, last: Option<char>, bar: string)
    requires Numeral(beats) && Numeral(measure) && Numeral(bar)
    requires last.None? || last == Some('r')
    ensures MatchMeterChange(beats + Sep('/', measure, KeywordRender(METER_STEM, last, bar))) ==
              Some(MeterChangeText(DecimalText(beats, None), measure, bar))
  {
    var kw := KeywordRender(METER_STEM, last, bar);
    assert kw[0] == ':';
    SplitAfterSep('/', measure, kw);
    SplitDigitsOf(beats, Sep('/', measure, kw));
    MatchKeywordRendered(METER_STEM, last, 'r', bar);
  }

  /** Printed fields of a meter change read back as that meter change. */
  lemma MeterFieldsReadBack(s: string, beats: nat, measure: Measure, bar: nat)
    requires MatchMeterChange(s) ==
               Some(MeterChangeText(DecimalText(NatToString(beats), None), NatToString(measure as nat), NatToString(bar)))
    ensures MeterChangeFromString(s) == Success(MeterChange(Meter(beats, measure), BarPos(bar)))
  {
    ParsePrinted(beats);
    ParsePrinted(measure as nat);
    ParsePrinted(bar);
  }

  /** Both spellings of the keyword the pattern allows read back the meter change. */
  lemma MeterChangeReadsBack(mc: MeterChange, last: Option<char>)
    requires last.None? || last == Some('r')
    ensures MeterChangeFromString(MeterChangeWith(mc, last)) == Success(mc)
  {
    var beats, measure, bar := NatToString(mc.meter.beats), NatToString(mc.meter.measure as nat), NatToString(mc.position.bar);
    BarPositionText(mc.position);
    MatchMeterChangeRendered(beats, measure, last, bar);
    MeterFieldsReadBack(MeterChangeWith(mc, last), mc.meter.beats, mc.meter.measure, mc.position.bar);
  }

  /** Every meter change prints to a text that parses back to it. */
  lemma MeterChangeRoundTrip(mc: MeterChange)
    ensures MeterChangeFromString(MeterChangeToString(mc)) == Success(mc)
  {
    MeterChangeReadsBack(mc, Some('r'));
  }

  // ------------------------------------------------------------ bpm changes

  function Pow10(k: nat): (r: nat)
    ensures r > 0
  {
    if k == 0 then 1 else 10 * Pow10(k - 1)
  }

  /** parseFloat on a matched number. */
  function DecimalValue(t: DecimalText): real
    requires AllDigits(t.whole) && (t.frac.Some? ==> AllDigits(t.frac.value))
  {
    match t.frac
    case None => DigitsValue(t.whole) as real
    case Some(f) => DigitsValue(t.whole) as real + DigitsValue(f) as real / Pow10(|f|) as real
  }

  /** The fields of a bpm change text. */
  datatype BpmChangeText = BpmChangeText(bpm: DecimalText, position: string, fields: PositionText)

  /** BPM_CHANGE_REGEX: the position part has no duration. */
  function MatchBpmChange(s: string): (m: Option<BpmChangeText>)
    ensures m.Some? ==> Numeral(m.value.bpm.whole) && (m.value.bpm.frac.Some? ==> Numeral(m.value.bpm.frac.value))
  {
    match MatchDecimal(s)
    case None => None
    case Some((bpm, r1)) =>
      match MatchKeyword(r1, BPM_STEM, 'm')
      case None => None
      case Some(posText) =>
        match MatchPosition(posText)
        case None => None
        case Some(f) => if f.duration.Some? then None else Some(BpmChangeText(bpm, posText, f))
  }

  /** bpmChangeFromString: the tempo is read leniently, the position strictly. */
  function BpmChangeFromString(s: string): Result<BpmChange, Error> {
    match MatchBpmChange(s)
    case None => Failure(InvalidBpmChangeFormat(s))
    case Some(f) =>
      var position :- PositionOfText(f.position, f.fields);
      Success(BpmChange(DecimalValue(f.bpm), position))
  }

  predicate WholeTempo(bpm: real) {
    bpm >= 0.0 && bpm.Floor as real == bpm
  }

  /** A bpm change text, with or without the last letter of the keyword, for a whole tempo. */
  function BpmChangeWith(b: BpmChange, last: Option<char>): string
    requires WholeTempo(b.bpm)
  {
    NatToString(b.bpm.Floor as nat) + KeywordRender(BPM_STEM, last, PositionToString(b.position))
  }

  /** bpmChangeToString, for a whole tempo: the tempo, ":bpm@" and the position. */
  function BpmChangeToString(b: BpmChange): string
    requires WholeTempo(b.bpm)
  {
    BpmChangeWith(b, Some('m'))
  }

  /** The scanner splits a bpm change text into its fields. */
  lemma MatchBpmChangeRendered(bpm: string, last: Option<char>, f: PositionText)
    requires Numeral(bpm) && WellFormed(f) && f.duration.None?
    requires last.None? || last == Some('m')
    ensures MatchBpmChange(bpm + KeywordRender(BPM_STEM, last, Render(f))) ==
              Some(BpmChangeText(DecimalText(bpm, None), Render(f), f))
  {
    var kw := KeywordRender(BPM_STEM, last, Render(f));
    assert kw[0] == ':';
    SplitDigitsOf(bpm, kw);
    MatchKeywordRendered(BPM_STEM, last, 'm', Render(f));
    MatchRendered(f);
  }

  /** Both spellings of the keyword the pattern allows read back the bpm change. */
  lemma BpmChangeReadsBack(b: BpmChange, last: Option<char>)
    requires WholeTempo(b.bpm)
    requires last.None? || last == Some('m')
    ensures BpmChangeFromString(BpmChangeWith(b, last)) == Success(b)
  {
    var n := b.bpm.Floor as nat;
    MatchBpmChangeRendered(NatToString(n), last, TextOf(b.position));
    ReadTextOf(PositionToString(b.position), b.position);
  }

  /** Every bpm change with a whole tempo prints to a text that parses back to it. */
  lemma BpmChangeRoundTrip(b: BpmChange)
    requires WholeTempo(b.bpm)
    ensures BpmChangeFromString(BpmChangeToString(b)) == Success(b)
  {
    BpmChangeReadsBack(b, Some('m'));
  }
}
