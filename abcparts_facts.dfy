/**
 * What the part split promises: each voice's pass resolves exactly the notes
 * of that voice, in order and with the flags left by the calls before it; a
 * voice without notes resolves nothing; the flags only grow across a bar, the
 * staves only grow part by part, and a bar is written exactly when the grid of
 * every one of its parts can be built.
 */
module AbcPartsFacts {
  import opened Wrappers
  import opened NotedTypes
  import opened Positions
  import opened AbcBar
  import opened NotedDrums
  import opened AbcResolver
  import opened AbcResolverFacts
  import opened BarParts
  import opened AbcParts

  /** Fragment k of a pass is what the voice's step gives for note k with the flags left by the notes before it. */
  lemma {:induction false} PassAt(symbols: map<string, string>, fontSize: Note -> nat, items: seq<AnnotationItem>,
                                  rendered: seq<bool>, voice: seq<Note>, ns: seq<Note>, k: nat)
    requires |rendered| == |items| && k < |ns|
    ensures VoicePass(symbols, fontSize, items, rendered, voice, ns).0[k]
              == VoiceStep(symbols, fontSize, items, VoicePass(symbols, fontSize, items, rendered, voice, ns[..k]).1, voice, ns[k]).0
    decreases |ns|
  {
    var n := |ns| - 1;
    if k < n {
      PassAt(symbols, fontSize, items, rendered, voice, ns[..n], k);
      assert ns[..n][..k] == ns[..k];
    } else {
      assert ns[..k] == ns[..n];
    }
  }

  /**
   * A note gets a fragment exactly when it is on the grid, belongs to the
   * voice, and is an annotation or a note the symbol table maps.
   */
  lemma PassResolvesItsVoice(symbols: map<string, string>, fontSize: Note -> nat, items: seq<AnnotationItem>,
                             rendered: seq<bool>, voice: seq<Note>, ns: seq<Note>, k: nat)
    requires |rendered| == |items| && k < |ns|
    ensures VoicePass(symbols, fontSize, items, rendered, voice, ns).0[k].Some? <==>
              ns[k].position.RegularPos? && InVoice(voice, ns[k]) && (IsAnnotation(ns[k]) || ns[k].value in symbols)
  {
    PassAt(symbols, fontSize, items, rendered, voice, ns, k);
  }

  /** A voice with no notes resolves nothing and sets no flag: the lower staff when the lower voice is not used. */
  lemma {:induction false} EmptyVoicePass(symbols: map<string, string>, fontSize: Note -> nat, items: seq<AnnotationItem>,
                                          rendered: seq<bool>, ns: seq<Note>)
    requires |rendered| == |items|
    ensures forall k :: 0 <= k < |ns| ==> VoicePass(symbols, fontSize, items, rendered, [], ns).0[k].None?
    ensures VoicePass(symbols, fontSize, items, rendered, [], ns).1 == rendered
    decreases |ns|
  {
    if |ns| > 0 {
      EmptyVoicePass(symbols, fontSize, items, rendered, ns[..|ns| - 1]);
      assert !InVoice([], ns[|ns| - 1]);
    }
  }

  /** A flag set before a pass is still set after it. */
  lemma {:induction false} PassKeepsFlags(symbols: map<string, string>, fontSize: Note -> nat, items: seq<AnnotationItem>,
                                          rendered: seq<bool>, voice: seq<Note>, ns: seq<Note>, t: nat)
    requires |rendered| == |items| && t < |items| && rendered[t]
    ensures VoicePass(symbols, fontSize, items, rendered, voice, ns).1[t]
    decreases |ns|
  {
    if |ns| > 0 {
      var init := ns[..|ns| - 1];
      PassKeepsFlags(symbols, fontSize, items, rendered, voice, init, t);
      var before := VoicePass(symbols, fontSize, items, rendered, voice, init).1;
      FlagsAfterCall(symbols, fontSize, items, before, ns[|ns| - 1], t);
    }
  }

  /** A flag set before a voice of a part is still set after it. */
  lemma VoicePartKeepsFlags(symbols: map<string, string>, fontSize: Note -> nat, items: seq<AnnotationItem>,
                            rendered: seq<bool>, voice: seq<Note>, notes: seq<Note>,
                            partSize: nat, partOffset: nat, measure: Measure, t: nat)
    requires |rendered| == |items| && partSize > 0 && t < |items| && rendered[t]
    ensures VoicePart(symbols, fontSize, items, rendered, voice, notes, partSize, partOffset, measure).1[t]
  {
    var g := PartGrid(notes, partSize, partOffset, measure);
    if g.Success? {
      PassKeepsFlags(symbols, fontSize, items, rendered, voice, Rescaled(notes, g.value.1), t);
    }
  }

  /** The grid of part j of the bar can be built. */
  predicate PartFits(upper: seq<Note>, lower: seq<Note>, bar: nat, meter: Meter, j: nat) {
    PartGrid(BarPartNotes(upper, lower, bar, meter, j), BeatsPerPart(meter), PartAnchor(meter, j), meter.measure).Success?
  }

  /** A voice of a part is written exactly when the part's grid can be built; the voice and the flags play no part. */
  lemma VoicePartSucceeds(symbols: map<string, string>, fontSize: Note -> nat, items: seq<AnnotationItem>,
                          rendered: seq<bool>, voice: seq<Note>, notes: seq<Note>,
                          partSize: nat, partOffset: nat, measure: Measure)
    requires |rendered| == |items| && partSize > 0
    ensures VoicePart(symbols, fontSize, items, rendered, voice, notes, partSize, partOffset, measure).0.Success? <==>
              PartGrid(notes, partSize, partOffset, measure).Success?
  {
  }

  lemma PartStepSucceeds(symbols: map<string, string>, fontSize: Note -> nat, items: seq<AnnotationItem>,
                         upper: seq<Note>, lower: seq<Note>, bar: nat, meter: Meter, before: (Staves, seq<bool>), j: nat)
    requires |before.1| == |items|
    ensures PartStep(symbols, fontSize, items, upper, lower, bar, meter, before, j).Success? <==>
              PartFits(upper, lower, bar, meter, j)
  {
    var notes := BarPartNotes(upper, lower, bar, meter, j);
    var size := BeatsPerPart(meter);
    VoicePartSucceeds(symbols, fontSize, items, before.1, upper, notes, size, PartAnchor(meter, j), meter.measure);
    var up := VoicePart(symbols, fontSize, items, before.1, upper, notes, size, PartAnchor(meter, j), meter.measure);
    VoicePartSucceeds(symbols, fontSize, items, up.1, lower, notes, size, PartAnchor(meter, j), meter.measure);
  }

  lemma BarStepSucceeds(symbols: map<string, string>, fontSize: Note -> nat, items: seq<AnnotationItem>,
                        rendered: seq<bool>, upper: seq<Note>, lower: seq<Note>, bar: nat, meter: Meter, head: string, k: nat)
    requires |rendered| == |items| && k > 0
    ensures BarUpTo(symbols, fontSize, items, rendered, upper, lower, bar, meter, head, k).Success? <==>
              BarUpTo(symbols, fontSize, items, rendered, upper, lower, bar, meter, head, k - 1).Success?
              && PartFits(upper, lower, bar, meter, k - 1)
  {
    var before := BarUpTo(symbols, fontSize, items, rendered, upper, lower, bar, meter, head, k - 1);
    if before.Success? {
      PartStepSucceeds(symbols, fontSize, items, upper, lower, bar, meter, before.value, k - 1);
    }
  }

  /** Whether the grid of each of the first k parts can be built, part by part. */
  function Fitting(upper: seq<Note>, lower: seq<Note>, bar: nat, meter: Meter, k: nat): (r: seq<bool>)
    ensures |r| == k
  {
    seq(k, j requires 0 <= j < k => PartFits(upper, lower, bar, meter, j))
  }

  /** The grids of the first k parts can all be built. */
  predicate AllFit(upper: seq<Note>, lower: seq<Note>, bar: nat, meter: Meter, k: nat) {
    false !in Fitting(upper, lower, bar, meter, k)
  }

  lemma FitsUpToStep(upper: seq<Note>, lower: seq<Note>, bar: nat, meter: Meter, k: nat)
    requires k > 0
    ensures AllFit(upper, lower, bar, meter, k) <==> AllFit(upper, lower, bar, meter, k - 1) && PartFits(upper, lower, bar, meter, k - 1)
  {
    var flags := Fitting(upper, lower, bar, meter, k);
    NoFalseStep(flags);
    assert flags[..k - 1] == Fitting(upper, lower, bar, meter, k - 1);
  }

  /** A list of flags has no false one exactly when its front has none and its last is true. */
  lemma NoFalseStep(flags: seq<bool>)
    requires |flags| > 0
    ensures false !in flags <==> false !in flags[..|flags| - 1] && flags[|flags| - 1]
  {
    assert flags == flags[..|flags| - 1] + [flags[|flags| - 1]];
  }

  /** Entry j of Fitting is whether part j fits. */
  lemma FittingAt(upper: seq<Note>, lower: seq<Note>, bar: nat, meter: Meter, k: nat, j: nat)
    requires j < k
    ensures Fitting(upper, lower, bar, meter, k)[j] == PartFits(upper, lower, bar, meter, j)
  {
  }

  lemma BarSucceedsStep(symbols: map<string, string>, fontSize: Note -> nat, items: seq<AnnotationItem>,
                        rendered: seq<bool>, upper: seq<Note>, lower: seq<Note>, bar: nat, meter: Meter, head: string, k: nat)
    requires |rendered| == |items| && k > 0
    ensures BarUpTo(symbols, fontSize, items, rendered, upper, lower, bar, meter, head, k).Success? <==>
              AllFit(upper, lower, bar, meter, k)
    decreases k, 0
  {
    BarSucceeds(symbols, fontSize, items, rendered, upper, lower, bar, meter, head, k - 1);
    BarStepSucceeds(symbols, fontSize, items, rendered, upper, lower, bar, meter, head, k);
    FitsUpToStep(upper, lower, bar, meter, k);
  }

  lemma BarSucceedsAtStart(symbols: map<string, string>, fontSize: Note -> nat, items: seq<AnnotationItem>,
                           rendered: seq<bool>, upper: seq<Note>, lower: seq<Note>, bar: nat, meter: Meter, head: string, k: nat)
    requires |rendered| == |items| && k == 0
    ensures BarUpTo(symbols, fontSize, items, rendered, upper, lower, bar, meter, head, k).Success? <==>
              AllFit(upper, lower, bar, meter, k)
  {
  }

  /** The first k parts are written exactly when the grid of every one of them can be built. */
  lemma BarSucceeds(symbols: map<string, string>, fontSize: Note -> nat, items: seq<AnnotationItem>,
                    rendered: seq<bool>, upper: seq<Note>, lower: seq<Note>, bar: nat, meter: Meter,
                    head: string, k: nat)
    requires |rendered| == |items|
    ensures BarUpTo(symbols, fontSize, items, rendered, upper, lower, bar, meter, head, k).Success? <==>
              AllFit(upper, lower, bar, meter, k)
    decreases k, 1
  {
    if k == 0 {
      BarSucceedsAtStart(symbols, fontSize, items, rendered, upper, lower, bar, meter, head, k);
    } else {
      BarSucceedsStep(symbols, fontSize, items, rendered, upper, lower, bar, meter, head, k);
    }
  }

  /** The later state extends the earlier one: both staves only had text appended, and no flag was cleared. */
  predicate Extends(before: (Staves, seq<bool>), after: (Staves, seq<bool>)) {
    && before.0.upper <= after.0.upper && before.0.lower <= after.0.lower
    && |before.1| == |after.1|
    && forall t :: 0 <= t < |before.1| && before.1[t] ==> after.1[t]
  }

  /** Each part is appended to both staves and keeps every flag set before it. */
  lemma PartStepExtends(symbols: map<string, string>, fontSize: Note -> nat, items: seq<AnnotationItem>,
                        upper: seq<Note>, lower: seq<Note>, bar: nat, meter: Meter, before: (Staves, seq<bool>), j: nat)
    requires |before.1| == |items|
    requires PartStep(symbols, fontSize, items, upper, lower, bar, meter, before, j).Success?
    ensures Extends(before, PartStep(symbols, fontSize, items, upper, lower, bar, meter, before, j).value)
  {
    var notes := BarPartNotes(upper, lower, bar, meter, j);
    var size := BeatsPerPart(meter);
    var up := VoicePart(symbols, fontSize, items, before.1, upper, notes, size, PartAnchor(meter, j), meter.measure);
    forall t | 0 <= t < |before.1| && before.1[t]
      ensures up.1[t]
    {
      VoicePartKeepsFlags(symbols, fontSize, items, before.1, upper, notes, size, PartAnchor(meter, j), meter.measure, t);
    }
    forall t | 0 <= t < |up.1| && up.1[t]
      ensures VoicePart(symbols, fontSize, items, up.1, lower, notes, size, PartAnchor(meter, j), meter.measure).1[t]
    {
      VoicePartKeepsFlags(symbols, fontSize, items, up.1, lower, notes, size, PartAnchor(meter, j), meter.measure, t);
    }
  }

  /** A bar written up to part k was written up to part k - 1 first, and part k - 1 was appended to it. */
  lemma BarStep(symbols: map<string, string>, fontSize: Note -> nat, items: seq<AnnotationItem>,
                rendered: seq<bool>, upper: seq<Note>, lower: seq<Note>, bar: nat, meter: Meter, head: string, k: nat)
    requires |rendered| == |items| && k > 0
    requires BarUpTo(symbols, fontSize, items, rendered, upper, lower, bar, meter, head, k).Success?
    ensures BarUpTo(symbols, fontSize, items, rendered, upper, lower, bar, meter, head, k - 1).Success?
    ensures BarUpTo(symbols, fontSize, items, rendered, upper, lower, bar, meter, head, k)
              == PartStep(symbols, fontSize, items, upper, lower, bar, meter,
                          BarUpTo(symbols, fontSize, items, rendered, upper, lower, bar, meter, head, k - 1).value, k - 1)
  {
  }

  /** Without the lower voice a bar's lower staff resolves no note, and each of its parts keeps the flags as they are. */
  lemma NoLowerStaffNotes(symbols: map<string, string>, fontSize: Note -> nat, items: seq<AnnotationItem>,
                          rendered: seq<bool>, notes: seq<Note>, ns: seq<Note>)
    requires |rendered| == |items|
    ensures forall k :: 0 <= k < |ns| ==> VoicePass(symbols, fontSize, items, rendered, LowerNotes(notes, false), ns).0[k].None?
    ensures VoicePass(symbols, fontSize, items, rendered, LowerNotes(notes, false), ns).1 == rendered
  {
    NoLowerVoice(notes);
    EmptyVoicePass(symbols, fontSize, items, rendered, ns);
  }
}
