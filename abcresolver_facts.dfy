/**
 * What the note resolver promises over the calls of one bar: the flags only
 * grow, each merged annotation is written by at most one call, and by the
 * first call for a mapped note at its position; the text only depends on the
 * instant a note is at, not on the grid its position is written in.
 */
module AbcResolverFacts {
  import opened Wrappers
  import opened NotedTypes
  import opened Positions
  import opened AbcBar
  import opened NotedDrums
  import opened AbcResolver

  /** The call for n writes item k: n is a note the table maps, and item k is waiting at its position. */
  predicate Writes(symbols: map<string, string>, items: seq<AnnotationItem>, rendered: seq<bool>, n: Note, k: nat)
    requires |rendered| == |items| && k < |items|
  {
    !IsAnnotation(n) && n.value in symbols && Merges(items, rendered, n.position, k)
  }

  /** The resolver's flags after each note of ns in turn, and the fragments it gave. */
  function ResolveAll(symbols: map<string, string>, fontSize: Note -> nat, items: seq<AnnotationItem>,
                      rendered: seq<bool>, ns: seq<Note>): (r: (seq<Option<Fragment>>, seq<bool>))
    requires |rendered| == |items|
    ensures |r.0| == |ns| && |r.1| == |items|
  {
    if |ns| == 0 then ([], rendered)
    else
      var before := ResolveAll(symbols, fontSize, items, rendered, ns[..|ns| - 1]);
      var step := Resolved(symbols, fontSize, items, before.1, ns[|ns| - 1]);
      (before.0 + [step.fragment], step.rendered)
  }

  /** The flags before the call for ns[i]. */
  function FlagsBefore(symbols: map<string, string>, fontSize: Note -> nat, items: seq<AnnotationItem>,
                       rendered: seq<bool>, ns: seq<Note>, i: nat): (r: seq<bool>)
    requires |rendered| == |items| && i <= |ns|
    ensures |r| == |items|
  {
    ResolveAll(symbols, fontSize, items, rendered, ns[..i]).1
  }

  /** One call sets exactly the flags of the items it writes and keeps all others. */
  lemma FlagsAfterCall(symbols: map<string, string>, fontSize: Note -> nat, items: seq<AnnotationItem>,
                       rendered: seq<bool>, n: Note, k: nat)
    requires |rendered| == |items| && k < |items|
    ensures Resolved(symbols, fontSize, items, rendered, n).rendered[k] <==> rendered[k] || Writes(symbols, items, rendered, n, k)
  {
  }

  lemma FlagsBeforeStep(symbols: map<string, string>, fontSize: Note -> nat, items: seq<AnnotationItem>,
                        rendered: seq<bool>, ns: seq<Note>, i: nat)
    requires |rendered| == |items| && i < |ns|
    ensures FlagsBefore(symbols, fontSize, items, rendered, ns, i + 1)
              == Resolved(symbols, fontSize, items, FlagsBefore(symbols, fontSize, items, rendered, ns, i), ns[i]).rendered
  {
    assert ns[..i + 1][..i] == ns[..i];
  }

  /** A flag once set stays set for the rest of the calls. */
  lemma {:induction false} FlagStays(symbols: map<string, string>, fontSize: Note -> nat, items: seq<AnnotationItem>,
                                     rendered: seq<bool>, ns: seq<Note>, i: nat, j: nat, k: nat)
    requires |rendered| == |items| && i <= j <= |ns| && k < |items|
    requires FlagsBefore(symbols, fontSize, items, rendered, ns, i)[k]
    ensures FlagsBefore(symbols, fontSize, items, rendered, ns, j)[k]
    decreases j - i
  {
    if i < j {
      FlagsBeforeStep(symbols, fontSize, items, rendered, ns, i);
      FlagsAfterCall(symbols, fontSize, items, FlagsBefore(symbols, fontSize, items, rendered, ns, i), ns[i], k);
      FlagStays(symbols, fontSize, items, rendered, ns, i + 1, j, k);
    }
  }

  /** No merged annotation is written by two calls. */
  lemma WrittenAtMostOnce(symbols: map<string, string>, fontSize: Note -> nat, items: seq<AnnotationItem>,
                          rendered: seq<bool>, ns: seq<Note>, i: nat, j: nat, k: nat)
    requires |rendered| == |items| && i < j < |ns| && k < |items|
    requires Writes(symbols, items, FlagsBefore(symbols, fontSize, items, rendered, ns, i), ns[i], k)
    ensures !Writes(symbols, items, FlagsBefore(symbols, fontSize, items, rendered, ns, j), ns[j], k)
  {
    FlagsBeforeStep(symbols, fontSize, items, rendered, ns, i);
    FlagsAfterCall(symbols, fontSize, items, FlagsBefore(symbols, fontSize, items, rendered, ns, i), ns[i], k);
    FlagStays(symbols, fontSize, items, rendered, ns, i + 1, j, k);
  }

  /** A flag set by the calls before ns[i] was set by one of them writing the item. */
  lemma {:induction false} FlagHasWriter(symbols: map<string, string>, fontSize: Note -> nat, items: seq<AnnotationItem>,
                                         rendered: seq<bool>, ns: seq<Note>, i: nat, k: nat)
    requires |rendered| == |items| && i <= |ns| && k < |items| && !rendered[k]
    requires FlagsBefore(symbols, fontSize, items, rendered, ns, i)[k]
    ensures exists w :: 0 <= w < i && Writes(symbols, items, FlagsBefore(symbols, fontSize, items, rendered, ns, w), ns[w], k)
    decreases i
  {
    if i > 0 {
      var before := FlagsBefore(symbols, fontSize, items, rendered, ns, i - 1);
      FlagsBeforeStep(symbols, fontSize, items, rendered, ns, i - 1);
      FlagsAfterCall(symbols, fontSize, items, before, ns[i - 1], k);
      if !Writes(symbols, items, before, ns[i - 1], k) {
        FlagHasWriter(symbols, fontSize, items, rendered, ns, i - 1, k);
      }
    }
  }

  /**
   * A merged annotation that no call has written yet is written by the first
   * call for a mapped note at its position: once any such note is resolved,
   * exactly one call, at it or before it, has written the annotation.
   */
  lemma WrittenByFirstMatch(symbols: map<string, string>, fontSize: Note -> nat, items: seq<AnnotationItem>,
                            rendered: seq<bool>, ns: seq<Note>, i: nat, k: nat)
    requires |rendered| == |items| && i < |ns| && k < |items| && !rendered[k]
    requires items[k].merge && !IsAnnotation(ns[i]) && ns[i].value in symbols
    requires ComparePositions(ns[i].position, items[k].note.position) == 0.0
    ensures exists w :: 0 <= w <= i && Writes(symbols, items, FlagsBefore(symbols, fontSize, items, rendered, ns, w), ns[w], k)
  {
    var before := FlagsBefore(symbols, fontSize, items, rendered, ns, i);
    if !Writes(symbols, items, before, ns[i], k) {
      FlagHasWriter(symbols, fontSize, items, rendered, ns, i, k);
    }
  }

  /** The annotations a mapped note is written with are exactly the items its call writes. */
  lemma {:induction false} MergedMembers(items: seq<AnnotationItem>, rendered: seq<bool>, p: Position, fontSize: Note -> nat, upto: nat)
    requires |rendered| == |items| && upto <= |items|
    ensures forall d :: d in Merged(items, rendered, p, fontSize, upto) <==>
              exists k :: 0 <= k < upto && Merges(items, rendered, p, k) && d == AnnotationDirective(items[k].note, fontSize(items[k].note))
    decreases upto
  {
    if upto > 0 {
      MergedMembers(items, rendered, p, fontSize, upto - 1);
    }
  }

  /**
   * The call for a mapped note: its fragment is its grace notes, the
   * annotations it writes, its accent, and the ghost mark and symbol as body;
   * its text is the annotations, each on a line of its own, then the grace
   * notes, the ghost mark, the accent and the symbol.
   */
  lemma MappedNoteLayout(symbols: map<string, string>, fontSize: Note -> nat, items: seq<AnnotationItem>,
                         rendered: seq<bool>, n: Note)
    requires |rendered| == |items| && !IsAnnotation(n) && n.value in symbols
    ensures var r := Resolved(symbols, fontSize, items, rendered, n);
      var v := symbols[n.value];
      && r.fragment.Some? && r.text.Some?
      && r.fragment.value.grace == Grace(n, v)
      && r.fragment.value.body == GhostMark(n) + v
      && (r.fragment.value.accent <==> HasAttribute(n, ATTR_ACCENT))
      && r.text.value == AnnotationText(r.fragment.value.annotations) + (r.fragment.value.grace + (GhostMark(n) + (AccentMark(n) + v)))
      && forall d :: d in r.fragment.value.annotations <==>
           exists k :: 0 <= k < |items| && Writes(symbols, items, rendered, n, k) && d == AnnotationDirective(items[k].note, fontSize(items[k].note))
  {
    MergedMembers(items, rendered, n.position, fontSize, |items|);
    var v := symbols[n.value];
    var tail := GhostMark(n) + (AccentMark(n) + v);
    assert Decorated(n, v) == Grace(n, v) + tail;
  }

  /** A note with no annotation waiting at its position is written without any, and leaves the flags alone. */
  lemma NothingToMerge(symbols: map<string, string>, fontSize: Note -> nat, items: seq<AnnotationItem>,
                       rendered: seq<bool>, n: Note)
    requires |rendered| == |items| && !IsAnnotation(n) && n.value in symbols
    requires forall k :: 0 <= k < |items| ==> !Merges(items, rendered, n.position, k)
    ensures Resolved(symbols, fontSize, items, rendered, n).fragment.value.annotations == []
    ensures Resolved(symbols, fontSize, items, rendered, n).rendered == rendered
  {
    MergedNone(items, rendered, n.position, fontSize, |items|);
  }

  lemma {:induction false} MergedNone(items: seq<AnnotationItem>, rendered: seq<bool>, p: Position, fontSize: Note -> nat, upto: nat)
    requires |rendered| == |items| && upto <= |items|
    requires forall k :: 0 <= k < |items| ==> !Merges(items, rendered, p, k)
    ensures Merged(items, rendered, p, fontSize, upto) == []
    decreases upto
  {
    if upto > 0 {
      MergedNone(items, rendered, p, fontSize, upto - 1);
    }
  }

  /** Annotations and notes the table does not know change no flag. */
  lemma OthersKeepFlags(symbols: map<string, string>, fontSize: Note -> nat, items: seq<AnnotationItem>,
                        rendered: seq<bool>, n: Note)
    requires |rendered| == |items| && (IsAnnotation(n) || n.value !in symbols)
    ensures Resolved(symbols, fontSize, items, rendered, n).rendered == rendered
    ensures IsAnnotation(n) ==> Resolved(symbols, fontSize, items, rendered, n).fragment.value.body == REST
    ensures !IsAnnotation(n) ==> Resolved(symbols, fontSize, items, rendered, n).fragment.None?
  {
  }

  /**
   * The resolver sees the note buildAbcBar hands it, on the bar's common grid;
   * what it gives only depends on the instant the note is at.
   */
  lemma ResolutionIgnoresGrid(symbols: map<string, string>, fontSize: Note -> nat, items: seq<AnnotationItem>,
                              rendered: seq<bool>, n: Note, q: Position)
    requires |rendered| == |items| && ToDecimal(q) == ToDecimal(n.position)
    requires fontSize(n.(position := q)) == fontSize(n)
    ensures Resolved(symbols, fontSize, items, rendered, n.(position := q)) == Resolved(symbols, fontSize, items, rendered, n)
  {
    MergedSame(items, rendered, n.position, q, fontSize, |items|);
    assert Marked(items, rendered, q) == Marked(items, rendered, n.position);
  }

  lemma {:induction false} MergedSame(items: seq<AnnotationItem>, rendered: seq<bool>, p: Position, q: Position, fontSize: Note -> nat, upto: nat)
    requires |rendered| == |items| && upto <= |items| && ToDecimal(q) == ToDecimal(p)
    ensures Merged(items, rendered, q, fontSize, upto) == Merged(items, rendered, p, fontSize, upto)
    decreases upto
  {
    if upto > 0 {
      MergedSame(items, rendered, p, q, fontSize, upto - 1);
      MergesSame(items, rendered, p, q, upto - 1);
    }
  }

  lemma MergesSame(items: seq<AnnotationItem>, rendered: seq<bool>, p: Position, q: Position, k: nat)
    requires |rendered| == |items| && k < |items| && ToDecimal(q) == ToDecimal(p)
    ensures Merges(items, rendered, q, k) == Merges(items, rendered, p, k)
  {
  }
}
