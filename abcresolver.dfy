/**
 * The note resolver compositionToAbc sets up for each bar: which notes go to
 * the upper and to the lower voice, which annotations merge into a note at
 * their position, and the ABC text (with its structured fragment) written for
 * one note: the merged annotations, the grace notes, the ghost and accent
 * decorations, then the note symbol.
 */
module AbcResolver {
  import opened Wrappers
  import opened NotedTypes
  import opened Positions
  import opened Numerals
  import opened AbcBar
  import opened NotedDrums

  /** The decoration written before a ghost note. */
  const GHOST: string := "!ghost!"

  /** The notes written in the lower voice when it is used. */
  const LOWER_NOTES: seq<string> := ["hhp", "bd"]

  // -------------------------------------------------------------------- voices

  function LowerNames(useLowerVoice: bool): seq<string> {
    if useLowerVoice then LOWER_NOTES else []
  }

  /** The strings of xs that are not in ys, in order. */
  function Without(xs: seq<string>, ys: seq<string>): (r: seq<string>)
    ensures forall x :: x in r <==> x in xs && x !in ys
  {
    if |xs| == 0 then []
    else
      var init := Without(xs[..|xs| - 1], ys);
      var last := xs[|xs| - 1];
      assert xs == xs[..|xs| - 1] + [last];
      init + (if last in ys then [] else [last])
  }

  function UpperNames(useLowerVoice: bool): seq<string> {
    Without(DRUM_NOTES, LowerNames(useLowerVoice))
  }

  /** The typeless notes whose value is one of names, in order. */
  function Typeless(notes: seq<Note>, names: seq<string>): (r: seq<Note>)
    ensures |r| <= |notes|
  {
    if |notes| == 0 then []
    else
      var n := notes[|notes| - 1];
      Typeless(notes[..|notes| - 1], names) + (if n.value in names && n.kind.None? then [n] else [])
  }

  lemma {:induction false} TypelessMembers(notes: seq<Note>, names: seq<string>)
    ensures forall n :: n in Typeless(notes, names) <==> n in notes && n.value in names && n.kind.None?
    decreases |notes|
  {
    if |notes| > 0 {
      TypelessMembers(notes[..|notes| - 1], names);
      assert notes == notes[..|notes| - 1] + [notes[|notes| - 1]];
    }
  }

  /** An annotation of the bar, and whether a note of either voice shares its position. */
  datatype AnnotationItem = AnnotationItem(note: Note, merge: bool)

  predicate SharesPosition(voiced: seq<Note>, p: Position) {
    exists u :: u in voiced && ComparePositions(u.position, p) == 0.0
  }

  /** The annotations of the bar, in order, each marked with whether it merges into a voiced note. */
  function AnnotationsData(notes: seq<Note>, voiced: seq<Note>): (r: seq<AnnotationItem>)
    ensures forall k :: 0 <= k < |r| ==> IsAnnotation(r[k].note) && r[k].note in notes
    ensures forall k :: 0 <= k < |r| ==> (r[k].merge <==> SharesPosition(voiced, r[k].note.position))
  {
    if |notes| == 0 then []
    else
      var n := notes[|notes| - 1];
      var init := AnnotationsData(notes[..|notes| - 1], voiced);
      assert forall k :: 0 <= k < |init| ==> init[k].note in notes;
      init + (if IsAnnotation(n) then [AnnotationItem(n, SharesPosition(voiced, n.position))] else [])
  }

  /** The notes of the annotations that merge into no note. */
  function Unmerged(items: seq<AnnotationItem>): (r: seq<Note>)
    ensures forall n :: n in r ==> exists k :: 0 <= k < |items| && items[k].note == n && !items[k].merge
  {
    if |items| == 0 then []
    else
      var a := items[|items| - 1];
      Unmerged(items[..|items| - 1]) + (if a.merge then [] else [a.note])
  }

  lemma {:induction false} UnmergedHolds(items: seq<AnnotationItem>, k: nat)
    requires k < |items| && !items[k].merge
    ensures items[k].note in Unmerged(items)
    decreases |items|
  {
    if k < |items| - 1 {
      UnmergedHolds(items[..|items| - 1], k);
    }
  }

  function Voiced(notes: seq<Note>, useLowerVoice: bool): seq<Note> {
    Typeless(notes, UpperNames(useLowerVoice)) + Typeless(notes, LowerNames(useLowerVoice))
  }

  function Items(notes: seq<Note>, useLowerVoice: bool): seq<AnnotationItem> {
    AnnotationsData(notes, Voiced(notes, useLowerVoice))
  }

  /** The upper voice: its typeless notes, then the annotations that merge into no note. */
  function UpperNotes(notes: seq<Note>, useLowerVoice: bool): seq<Note> {
    Typeless(notes, UpperNames(useLowerVoice)) + Unmerged(Items(notes, useLowerVoice))
  }

  function LowerNotes(notes: seq<Note>, useLowerVoice: bool): seq<Note> {
    Typeless(notes, LowerNames(useLowerVoice))
  }

  /**
   * Every typeless drum note of the bar is in exactly one voice: the lower one
   * when it is used and the note is a pedal hi-hat or a bass drum, the upper
   * one otherwise. A note of any other value or type is in neither.
   */
  lemma VoicesSplit(notes: seq<Note>, useLowerVoice: bool, n: Note)
    requires n in notes && n.kind.None?
    ensures n in LowerNotes(notes, useLowerVoice) <==> useLowerVoice && n.value in LOWER_NOTES
    ensures n in UpperNotes(notes, useLowerVoice) <==> n.value in DRUM_NOTES && !(useLowerVoice && n.value in LOWER_NOTES)
  {
    TypelessMembers(notes, UpperNames(useLowerVoice));
    TypelessMembers(notes, LowerNames(useLowerVoice));
    UnmergedAreAnnotations(Items(notes, useLowerVoice));
  }

  lemma UnmergedAreAnnotations(items: seq<AnnotationItem>)
    requires forall k :: 0 <= k < |items| ==> IsAnnotation(items[k].note)
    ensures forall n :: n in Unmerged(items) ==> IsAnnotation(n)
  {
  }

  /** Without the lower voice every drum note is written in the upper voice. */
  lemma NoLowerVoice(notes: seq<Note>)
    ensures LowerNotes(notes, false) == []
    ensures UpperNames(false) == DRUM_NOTES
  {
    var r := UpperNames(false);
    assert r == DRUM_NOTES by {
      WithoutNothing(DRUM_NOTES);
    }
    TypelessOfNoName(notes);
  }

  lemma {:induction false} TypelessOfNoName(notes: seq<Note>)
    ensures Typeless(notes, []) == []
    decreases |notes|
  {
    if |notes| > 0 {
      TypelessOfNoName(notes[..|notes| - 1]);
    }
  }

  lemma {:induction false} WithoutNothing(xs: seq<string>)
    ensures Without(xs, []) == xs
    decreases |xs|
  {
    if |xs| > 0 {
      WithoutNothing(xs[..|xs| - 1]);
      assert xs == xs[..|xs| - 1] + [xs[|xs| - 1]];
    }
  }

  /**
   * Every annotation of the bar is written: either it shares its position with
   * a note of a voice and merges into it, or it is a note of the upper voice.
   */
  lemma AnnotationsPlaced(notes: seq<Note>, useLowerVoice: bool, k: nat)
    requires k < |Items(notes, useLowerVoice)|
    ensures var a := Items(notes, useLowerVoice)[k];
      if a.merge then SharesPosition(Voiced(notes, useLowerVoice), a.note.position)
      else a.note in UpperNotes(notes, useLowerVoice)
  {
    var items := Items(notes, useLowerVoice);
    if !items[k].merge {
      UnmergedHolds(items, k);
    }
  }

  // ------------------------------------------------------------ one note's text

  /** The annotation renderAnnotation writes, without the line break before it: the font directive, then the text above or below. */
  function AnnotationDirective(n: Note, fontSize: nat): string {
    "%%annotationfont * " + NatToString(fontSize) + " " + (if HasAttribute(n, ATTR_ANNOT_BORDER) then "box" else "nobox") + "\n"
      + "\"" + (if HasAttribute(n, ATTR_ANNOT_BELOW) then "_" else "^") + n.value + "\""
  }

  /** The annotations written before a note, each on a line of its own, in the given order. */
  function AnnotationText(ds: seq<string>): string {
    if |ds| == 0 then "" else "\n" + ds[0] + AnnotationText(ds[1..])
  }

  function DragGrace(n: Note, v: string): string {
    if HasAttribute(n, ATTR_DRAG) then "{" + v + v + "}" else ""
  }

  function FlamGrace(n: Note, v: string): string {
    if HasAttribute(n, ATTR_FLAM) then "{" + v + "}" else ""
  }

  /** The grace notes: a drag's double grace note before a flam's single one. */
  function Grace(n: Note, v: string): string {
    DragGrace(n, v) + FlamGrace(n, v)
  }

  function GhostMark(n: Note): string {
    if HasAttribute(n, ATTR_GHOST) then GHOST else ""
  }

  function AccentMark(n: Note): string {
    if HasAttribute(n, ATTR_ACCENT) then ACCENT else ""
  }

  /** The symbol v with the note's grace notes and decorations before it. */
  function Decorated(n: Note, v: string): string {
    DragGrace(n, v) + (FlamGrace(n, v) + (GhostMark(n) + (AccentMark(n) + v)))
  }

  /** Item k is still waiting to be merged into a note at p. */
  predicate Merges(items: seq<AnnotationItem>, rendered: seq<bool>, p: Position, k: nat)
    requires |rendered| == |items| && k < |items|
  {
    items[k].merge && !rendered[k] && ComparePositions(p, items[k].note.position) == 0.0
  }

  /** The annotations among items[..upto] that merge into a note at p, the later ones first. */
  function Merged(items: seq<AnnotationItem>, rendered: seq<bool>, p: Position, fontSize: Note -> nat, upto: nat): seq<string>
    requires |rendered| == |items| && upto <= |items|
  {
    if upto == 0 then []
    else
      var a := items[upto - 1];
      (if Merges(items, rendered, p, upto - 1) then [AnnotationDirective(a.note, fontSize(a.note))] else [])
        + Merged(items, rendered, p, fontSize, upto - 1)
  }

  /** The flags once the annotations merging into a note at p are written. */
  function Marked(items: seq<AnnotationItem>, rendered: seq<bool>, p: Position): (r: seq<bool>)
    requires |rendered| == |items|
    ensures |r| == |items|
  {
    seq(|items|, k requires 0 <= k < |items| => rendered[k] || Merges(items, rendered, p, k))
  }

  /** The flags once the items before upto have been looked at for a note at p. */
  function MarkedUpTo(items: seq<AnnotationItem>, rendered: seq<bool>, p: Position, upto: nat): (r: seq<bool>)
    requires |rendered| == |items|
    ensures |r| == |items|
  {
    seq(|items|, j requires 0 <= j < |items| => if j < upto then rendered[j] || Merges(items, rendered, p, j) else rendered[j])
  }

  lemma MarkStep(items: seq<AnnotationItem>, rendered: seq<bool>, p: Position, k: nat)
    requires |rendered| == |items| && k < |items|
    ensures MarkedUpTo(items, rendered, p, k + 1)
              == if Merges(items, rendered, p, k) then MarkedUpTo(items, rendered, p, k)[k := true]
                 else MarkedUpTo(items, rendered, p, k)
  {
  }

  lemma MarkedAll(items: seq<AnnotationItem>, rendered: seq<bool>, p: Position)
    requires |rendered| == |items|
    ensures MarkedUpTo(items, rendered, p, |items|) == Marked(items, rendered, p)
  {
  }

  lemma AnnotationTextCons(d: string, ds: seq<string>, tail: string)
    ensures AnnotationText([d] + ds) + tail == "\n" + d + (AnnotationText(ds) + tail)
  {
    assert ([d] + ds)[1..] == ds;
  }

  /** What one call of the resolver gives: the text, the fragment it stands for, and the new flags. */
  datatype Resolution = Resolution(text: Option<string>, fragment: Option<Fragment>, rendered: seq<bool>)

  /**
   * One call of the resolver. An annotation is written on its own before an
   * invisible rest; a note the symbol table does not know resolves to
   * nothing; any other note is written as its merged annotations, its grace
   * notes, its ghost and accent decorations and its symbol, in that order,
   * and the merged annotations are flagged as written.
   */
  function Resolved(symbols: map<string, string>, fontSize: Note -> nat, items: seq<AnnotationItem>,
                    rendered: seq<bool>, n: Note): (r: Resolution)
    requires |rendered| == |items|
    ensures |r.rendered| == |items|
    ensures r.text.Some? <==> r.fragment.Some?
  {
    if IsAnnotation(n) then
      var d := AnnotationDirective(n, fontSize(n));
      Resolution(Some("\n" + d + REST), Some(Fragment("", [d], false, REST)), rendered)
    else if n.value !in symbols then
      Resolution(None, None, rendered)
    else
      var v := symbols[n.value];
      var ds := Merged(items, rendered, n.position, fontSize, |items|);
      Resolution(Some(AnnotationText(ds) + Decorated(n, v)),
                 Some(Fragment(Grace(n, v), ds, HasAttribute(n, ATTR_ACCENT), GhostMark(n) + v)),
                 Marked(items, rendered, n.position))
  }

  /** The resolver of one bar: the symbol table, the font size of each annotation, and the bar's annotations with their flags. */
  class NoteResolver {
    const symbols: map<string, string>
    const fontSize: Note -> nat
    const items: seq<AnnotationItem>
    var rendered: seq<bool>

    predicate Valid()
      reads this
    {
      |rendered| == |items|
    }

    constructor (symbols: map<string, string>, fontSize: Note -> nat, items: seq<AnnotationItem>)
      ensures Valid()
      ensures this.symbols == symbols && this.fontSize == fontSize && this.items == items
      ensures rendered == seq(|items|, _ => false)
    {
      this.symbols := symbols;
      this.fontSize := fontSize;
      this.items := items;
      rendered := seq(|items|, _ => false);
    }

    /**
     * The loop over the bar's annotations: each one still waiting to merge at
     * p is written before the text built so far and flagged as written.
     */
    method MergeAnnotations(p: Position, decorated: string) returns (result: string, directives: seq<string>)
      requires Valid()
      modifies this
      ensures Valid()
      ensures directives == Merged(items, old(rendered), p, fontSize, |items|)
      ensures result == AnnotationText(directives) + decorated
      ensures rendered == Marked(items, old(rendered), p)
    {
      ghost var start := rendered;
      result, directives := decorated, [];
      for k := 0 to |items|
        invariant rendered == MarkedUpTo(items, start, p, k)
        invariant directives == Merged(items, start, p, fontSize, k)
        invariant result == AnnotationText(directives) + decorated
      {
        var merge := items[k].merge && !rendered[k] && ComparePositions(p, items[k].note.position) == 0.0;
        assert merge == Merges(items, start, p, k);
        if merge {
          var d := AnnotationDirective(items[k].note, fontSize(items[k].note));
          AnnotationTextCons(d, directives, decorated);
          result := "\n" + d + result;
          directives := [d] + directives;
          rendered := rendered[k := true];
        }
        MarkStep(items, start, p, k);
      }
      MarkedAll(items, start, p);
    }

    /** noteResolver: the text for n; the merged annotations are flagged so that no later note writes them again. */
    method Resolve(n: Note) returns (text: Option<string>, fragment: Option<Fragment>)
      requires Valid()
      modifies this
      ensures Valid()
      ensures Resolution(text, fragment, rendered) == Resolved(symbols, fontSize, items, old(rendered), n)
    {
      if n.kind == Some(TYPE_ANNOT) {
        var d := AnnotationDirective(n, fontSize(n));
        return Some("\n" + d + REST), Some(Fragment("", [d], false, REST));
      }
      if n.value !in symbols {
        return None, None;
      }
      var value := symbols[n.value];
      var result := value;
      if HasAttribute(n, ATTR_ACCENT) {
        result := ACCENT + result;
      }
      assert result == AccentMark(n) + value;
      if HasAttribute(n, ATTR_GHOST) {
        result := GHOST + result;
      }
      assert result == GhostMark(n) + (AccentMark(n) + value);
      if HasAttribute(n, ATTR_FLAM) {
        result := "{" + value + "}" + result;
      }
      assert result == FlamGrace(n, value) + (GhostMark(n) + (AccentMark(n) + value));
      if HasAttribute(n, ATTR_DRAG) {
        result := "{" + value + value + "}" + result;
      }
      assert result == Decorated(n, value);
      var directives;
      result, directives := MergeAnnotations(n.position, result);
      text := Some(result);
      fragment := Some(Fragment(Grace(n, value), directives, HasAttribute(n, ATTR_ACCENT), GhostMark(n) + value));
    }
  }
}
