/**
 * The editor's lines: which line of the tick grid a note is drawn on, and
 * with which symbol. A typeless note is drawn by every template of its value
 * whose attributes it all carries, the later templates overwriting the
 * earlier ones on the same line; an annotation goes to the bottom line when
 * it is marked below and to the top line otherwise.
 */
module BarLines {
  import opened Wrappers
  import opened NotedTypes
  import opened NotedDrums

  datatype Line = AnnotTop | Crash | Ride | HiHat | HighTom | LowTom | Snare | FloorTom | BassDrum | HiHatPedal | AnnotBottom

  datatype Template = Template(line: Line, value: string, attributes: seq<string>, symbol: string)

  const DEFAULT_NOTE_SYMBOL: string := "⬤"

  /** The flam and drag symbols are pictures in the editor; their names stand for them here. */
  const FLAM_SYMBOL: string := "flam.svg"
  const DRAG_SYMBOL: string := "drag.svg"

  const TEMPLATES: seq<Template> := [
    Template(Crash, "cr", [], "\U{1F5D9}"),
    Template(Ride, "rd", [], "\U{1F5D9}"),
    Template(Ride, "rb", [], "△"),
    Template(HiHat, "hhc", [], "\U{1F5D9}"),
    Template(HiHat, "hho", [], "⨂"),
    Template(HighTom, "ht", [], DEFAULT_NOTE_SYMBOL),
    Template(LowTom, "lt", [], DEFAULT_NOTE_SYMBOL),
    Template(Snare, "sn", [], DEFAULT_NOTE_SYMBOL),
    Template(Snare, "sn", [ATTR_GHOST], "(●)"),
    Template(Snare, "sn", [ATTR_ACCENT], ">"),
    Template(Snare, "sn", [ATTR_FLAM], FLAM_SYMBOL),
    Template(Snare, "sn", [ATTR_DRAG], DRAG_SYMBOL),
    Template(Snare, "ss", [], "\U{1F5D9}"),
    Template(FloorTom, "ft", [], DEFAULT_NOTE_SYMBOL),
    Template(BassDrum, "bd", [], DEFAULT_NOTE_SYMBOL),
    Template(HiHatPedal, "hhp", [], "\U{1F5D9}")
  ]

  /** A note drawn on a line, with its symbol. */
  datatype Entry = Entry(note: Note, symbol: string)

  /** The template draws the note: same value, and every attribute of the template is on the note. */
  predicate TemplateMatches(t: Template, n: Note) {
    t.value == n.value && forall a :: a in t.attributes ==> HasAttribute(n, a)
  }

  function AnnotationLine(n: Note): Line {
    if HasAttribute(n, ATTR_ANNOT_BELOW) then AnnotBottom else AnnotTop
  }

  // ------------------------------------------------------------------ writes

  /** The map after each (line, entry) write in turn, the later ones overwriting the earlier ones. */
  function Apply(m: map<Line, Entry>, ws: seq<(Line, Entry)>): map<Line, Entry> {
    if |ws| == 0 then m
    else
      var w := ws[|ws| - 1];
      Apply(m, ws[..|ws| - 1])[w.0 := w.1]
  }

  /** The writes of the templates of ts that match n, in order. */
  function TemplateWrites(n: Note, ts: seq<Template>): seq<(Line, Entry)> {
    if |ts| == 0 then []
    else
      var t := ts[|ts| - 1];
      TemplateWrites(n, ts[..|ts| - 1]) + (if TemplateMatches(t, n) then [(t.line, Entry(n, t.symbol))] else [])
  }

  /** The writes made for one note of a tick. */
  function NoteWrites(n: Note): seq<(Line, Entry)> {
    (if n.kind.None? then TemplateWrites(n, TEMPLATES) else [])
      + (if IsAnnotation(n) then [(AnnotationLine(n), Entry(n, n.value))] else [])
  }

  /** The writes made for the notes of a tick, in order. */
  function Writes(ns: seq<Note>): seq<(Line, Entry)> {
    if |ns| == 0 then [] else Writes(ns[..|ns| - 1]) + NoteWrites(ns[|ns| - 1])
  }

  /** The line map of a tick holding the notes ns. */
  function NoteMapOf(ns: seq<Note>): map<Line, Entry> {
    Apply(map[], Writes(ns))
  }

  lemma {:induction false} ApplyAppend(m: map<Line, Entry>, a: seq<(Line, Entry)>, b: seq<(Line, Entry)>)
    ensures Apply(m, a + b) == Apply(Apply(m, a), b)
    decreases |b|
  {
    if |b| == 0 {
      assert a + b == a;
    } else {
      assert (a + b)[..|a + b| - 1] == a + b[..|b| - 1];
      ApplyAppend(m, a, b[..|b| - 1]);
    }
  }

  /**
   * The last write to a line wins: a line is in the map exactly when it was
   * in it before or some write goes to it, and then it holds the entry of the
   * last write to it.
   */
  lemma {:induction false} LastWriteWins(m: map<Line, Entry>, ws: seq<(Line, Entry)>, l: Line)
    ensures l in Apply(m, ws) <==> l in m || exists i :: 0 <= i < |ws| && ws[i].0 == l
    ensures forall i :: 0 <= i < |ws| && ws[i].0 == l && (forall j :: i < j < |ws| ==> ws[j].0 != l) ==>
              l in Apply(m, ws) && Apply(m, ws)[l] == ws[i].1
    ensures (forall i :: 0 <= i < |ws| ==> ws[i].0 != l) ==> (l in Apply(m, ws) <==> l in m) && (l in m ==> Apply(m, ws)[l] == m[l])
    decreases |ws|
  {
    if |ws| > 0 {
      var init := ws[..|ws| - 1];
      LastWriteWins(m, init, l);
      assert forall i :: 0 <= i < |init| ==> init[i] == ws[i];
    }
  }

  lemma {:induction false} TemplateWritesMembers(n: Note, ts: seq<Template>)
    ensures forall w :: w in TemplateWrites(n, ts) <==> exists t :: t in ts && TemplateMatches(t, n) && w == (t.line, Entry(n, t.symbol))
    decreases |ts|
  {
    if |ts| > 0 {
      TemplateWritesMembers(n, ts[..|ts| - 1]);
      assert ts == ts[..|ts| - 1] + [ts[|ts| - 1]];
    }
  }

  lemma {:induction false} WritesHoldTheNotes(ns: seq<Note>)
    ensures forall w :: w in Writes(ns) ==> w.1.note in ns
    decreases |ns|
  {
    if |ns| > 0 {
      var n := ns[|ns| - 1];
      WritesHoldTheNotes(ns[..|ns| - 1]);
      TemplateWritesMembers(n, TEMPLATES);
      forall w | w in Writes(ns) ensures w.1.note in ns {
        if w in Writes(ns[..|ns| - 1]) {
          assert w.1.note in ns[..|ns| - 1];
        }
      }
    }
  }

  /** Every note on a line of a tick is one of the tick's notes. */
  lemma NoteMapHoldsTheNotes(ns: seq<Note>)
    ensures forall l :: l in NoteMapOf(ns) ==> NoteMapOf(ns)[l].note in ns
  {
    WritesHoldTheNotes(ns);
    forall l | l in NoteMapOf(ns) ensures NoteMapOf(ns)[l].note in ns {
      LastWriteWins(map[], Writes(ns), l);
      var i := LastTo(Writes(ns), l);
      assert Writes(ns)[i] in Writes(ns);
    }
  }

  /** The index of the last write to l. */
  ghost function LastTo(ws: seq<(Line, Entry)>, l: Line): (i: nat)
    requires exists i :: 0 <= i < |ws| && ws[i].0 == l
    ensures i < |ws| && ws[i].0 == l && forall j :: i < j < |ws| ==> ws[j].0 != l
  {
    if ws[|ws| - 1].0 == l then |ws| - 1
    else
      var init := ws[..|ws| - 1];
      var k :| 0 <= k < |ws| && ws[k].0 == l;
      assert init[k].0 == l;
      LastTo(init, l)
  }

  /** Template t draws note n on line l. */
  predicate DrawsOn(t: Template, n: Note, l: Line) {
    TemplateMatches(t, n) && t.line == l
  }

  /** ts[k] is the last template of ts that draws n on l. */
  predicate LastOn(ts: seq<Template>, n: Note, l: Line, k: int) {
    0 <= k < |ts| && DrawsOn(ts[k], n, l) && forall j :: k < j < |ts| ==> !DrawsOn(ts[j], n, l)
  }

  /**
   * Drawing one typeless note: a line holds it exactly when some template
   * matching the note is on that line, and then with the symbol of the last
   * such template; the other lines keep what they held.
   */
  lemma LastTemplateWins(m: map<Line, Entry>, n: Note, ts: seq<Template>, l: Line)
    ensures l in Apply(m, TemplateWrites(n, ts)) <==> l in m || exists k :: 0 <= k < |ts| && DrawsOn(ts[k], n, l)
    ensures forall k :: LastOn(ts, n, l, k) ==>
              l in Apply(m, TemplateWrites(n, ts)) && Apply(m, TemplateWrites(n, ts))[l] == Entry(n, ts[k].symbol)
    ensures (forall k :: 0 <= k < |ts| ==> !DrawsOn(ts[k], n, l)) && l in m ==>
              Apply(m, TemplateWrites(n, ts))[l] == m[l]
  {
    TemplateLineKept(m, n, ts, l);
    forall k | LastOn(ts, n, l, k)
      ensures l in Apply(m, TemplateWrites(n, ts)) && Apply(m, TemplateWrites(n, ts))[l] == Entry(n, ts[k].symbol)
    {
      TemplateLineEntry(m, n, ts, l, k);
    }
  }

  /** A line is drawn on when it was before or a template draws on it; with no such template it keeps its entry. */
  lemma {:induction false} TemplateLineKept(m: map<Line, Entry>, n: Note, ts: seq<Template>, l: Line)
    ensures l in Apply(m, TemplateWrites(n, ts)) <==> l in m || exists k :: 0 <= k < |ts| && DrawsOn(ts[k], n, l)
    ensures (forall k :: 0 <= k < |ts| ==> !DrawsOn(ts[k], n, l)) && l in m ==>
              Apply(m, TemplateWrites(n, ts))[l] == m[l]
    decreases |ts|
  {
    if |ts| > 0 {
      var last := |ts| - 1;
      var init := ts[..last];
      TemplateLineKept(m, n, init, l);
      assert forall k :: 0 <= k < |init| ==> init[k] == ts[k];
      TemplateStepAt(m, n, ts, last, l);
      assert ts[..last + 1] == ts;
    }
  }

  /** The line of the last template drawing n holds that template's symbol. */
  lemma {:induction false} TemplateLineEntry(m: map<Line, Entry>, n: Note, ts: seq<Template>, l: Line, k: int)
    requires LastOn(ts, n, l, k)
    ensures l in Apply(m, TemplateWrites(n, ts)) && Apply(m, TemplateWrites(n, ts))[l] == Entry(n, ts[k].symbol)
    decreases |ts|
  {
    var last := |ts| - 1;
    var init := ts[..last];
    TemplateStepAt(m, n, ts, last, l);
    assert ts[..last + 1] == ts;
    if k < last {
      assert LastOn(init, n, l, k);
      assert !DrawsOn(ts[last], n, l);
      TemplateLineEntry(m, n, init, l, k);
    }
  }

  /** A tick holding one typeless note draws it by the last matching template of each line. */
  lemma TypelessNoteLines(n: Note, l: Line)
    requires n.kind.None?
    ensures l in NoteMapOf([n]) <==> exists k :: 0 <= k < |TEMPLATES| && DrawsOn(TEMPLATES[k], n, l)
    ensures forall k :: LastOn(TEMPLATES, n, l, k) ==> NoteMapOf([n])[l] == Entry(n, TEMPLATES[k].symbol)
  {
    assert Writes([n]) == TemplateWrites(n, TEMPLATES) by {
      assert [n][..0] == [];
    }
    LastTemplateWins(map[], n, TEMPLATES, l);
  }

  lemma WritesOfOne(n: Note)
    ensures Writes([n]) == NoteWrites(n)
  {
    assert [n][..0] == [];
  }

  /** A tick holding one annotation draws it on the bottom line when it is marked below, on the top line otherwise, and nowhere else. */
  lemma AnnotationLines(n: Note)
    requires IsAnnotation(n)
    ensures NoteMapOf([n]) == map[(if HasAttribute(n, ATTR_ANNOT_BELOW) then AnnotBottom else AnnotTop) := Entry(n, n.value)]
  {
    var w := (AnnotationLine(n), Entry(n, n.value));
    WritesOfOne(n);
    AnnotationWrites(n);
    ApplyOne(map[], w);
  }

  lemma AnnotationWrites(n: Note)
    requires IsAnnotation(n)
    ensures NoteWrites(n) == [(AnnotationLine(n), Entry(n, n.value))]
  {
    assert !n.kind.None?;
  }

  lemma ApplyOne(m: map<Line, Entry>, w: (Line, Entry))
    ensures Apply(m, [w]) == m[w.0 := w.1]
  {
    assert [w][..0] == [];
  }

  /** The line map of the notes of one tick, note by note and template by template. */
  method FillNoteMap(tickNotes: seq<Note>) returns (noteMap: map<Line, Entry>)
    ensures noteMap == NoteMapOf(tickNotes)
  {
    noteMap := map[];
    for k := 0 to |tickNotes|
      invariant noteMap == Apply(map[], Writes(tickNotes[..k]))
    {
      var n := tickNotes[k];
      ghost var before := noteMap;
      if n.kind.None? {
        for t := 0 to |TEMPLATES|
          invariant noteMap == Apply(before, TemplateWrites(n, TEMPLATES[..t]))
        {
          var template := TEMPLATES[t];
          TemplateStep(before, n, TEMPLATES, t);
          if template.value == n.value && forall a :: a in template.attributes ==> HasAttribute(n, a) {
            noteMap := noteMap[template.line := Entry(n, template.symbol)];
          }
        }
        assert TEMPLATES[..|TEMPLATES|] == TEMPLATES;
      }
      ghost var drawn := noteMap;
      if n.kind == Some(TYPE_ANNOT) {
        var line := if HasAttribute(n, ATTR_ANNOT_BELOW) then AnnotBottom else AnnotTop;
        noteMap := noteMap[line := Entry(n, n.value)];
      }
      NoteStep(tickNotes, k, before, drawn, noteMap);
    }
    assert tickNotes[..|tickNotes|] == tickNotes;
  }

  lemma TemplateStep(m: map<Line, Entry>, n: Note, ts: seq<Template>, t: nat)
    requires t < |ts|
    ensures Apply(m, TemplateWrites(n, ts[..t + 1]))
              == if TemplateMatches(ts[t], n) then Apply(m, TemplateWrites(n, ts[..t]))[ts[t].line := Entry(n, ts[t].symbol)]
                 else Apply(m, TemplateWrites(n, ts[..t]))
  {
    assert ts[..t + 1][..t] == ts[..t];
    var tail := if TemplateMatches(ts[t], n) then [(ts[t].line, Entry(n, ts[t].symbol))] else [];
    ApplyAppend(m, TemplateWrites(n, ts[..t]), tail);
    assert tail == [] || tail[..0] == [];
  }

  /** TemplateStep on one line. */
  lemma TemplateStepAt(m: map<Line, Entry>, n: Note, ts: seq<Template>, t: nat, l: Line)
    requires t < |ts|
    ensures var a := Apply(m, TemplateWrites(n, ts[..t + 1]));
      var b := Apply(m, TemplateWrites(n, ts[..t]));
      && (l in a <==> l in b || DrawsOn(ts[t], n, l))
      && (l in a ==> a[l] == if DrawsOn(ts[t], n, l) then Entry(n, ts[t].symbol) else b[l])
  {
    TemplateStep(m, n, ts, t);
  }

  lemma NoteStep(ns: seq<Note>, k: nat, before: map<Line, Entry>, drawn: map<Line, Entry>, after: map<Line, Entry>)
    requires k < |ns|
    requires before == Apply(map[], Writes(ns[..k]))
    requires drawn == if ns[k].kind.None? then Apply(before, TemplateWrites(ns[k], TEMPLATES)) else before
    requires after == if IsAnnotation(ns[k]) then drawn[AnnotationLine(ns[k]) := Entry(ns[k], ns[k].value)] else drawn
    ensures after == Apply(map[], Writes(ns[..k + 1]))
  {
    assert ns[..k + 1][..k] == ns[..k];
    assert Writes(ns[..k + 1]) == Writes(ns[..k]) + NoteWrites(ns[k]);
    ApplyAppend(map[], Writes(ns[..k]), NoteWrites(ns[k]));
    OneNoteWrites(ns[k], before, drawn, after);
  }

  /** Drawing one note on a line map applies that note's writes. */
  lemma OneNoteWrites(n: Note, before: map<Line, Entry>, drawn: map<Line, Entry>, after: map<Line, Entry>)
    requires drawn == if n.kind.None? then Apply(before, TemplateWrites(n, TEMPLATES)) else before
    requires after == if IsAnnotation(n) then drawn[AnnotationLine(n) := Entry(n, n.value)] else drawn
    ensures after == Apply(before, NoteWrites(n))
  {
    var tw := if n.kind.None? then TemplateWrites(n, TEMPLATES) else [];
    var aw := if IsAnnotation(n) then [(AnnotationLine(n), Entry(n, n.value))] else [];
    ApplyAppend(before, tw, aw);
    assert aw == [] || aw[..0] == [];
    assert tw == [] ==> Apply(before, tw) == before;
  }
}
