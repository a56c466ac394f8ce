/**
 * The compound-meter split of compositionToAbc: a bar is written part by
 * part (a 6/4 bar as 3/4 + 3/4, a 4/4 bar beat by beat), each part once for
 * the upper voice and once for the lower one, through a single resolver whose
 * annotation flags carry over from voice to voice and from part to part.
 */
module AbcParts {
  import opened Wrappers
  import opened NotedTypes
  import opened Positions
  import opened AbcBar
  import opened AbcBarBuild
  import opened AbcResolver
  import opened BarParts

  /** The voice's find: some note of the voice has n's value and sounds at n's instant. */
  predicate InVoice(voice: seq<Note>, n: Note) {
    exists k :: 0 <= k < |voice| && voice[k].value == n.value && ComparePositions(voice[k].position, n.position) == 0.0
  }

  /** The notes buildAbcBar hands its resolver: the part's notes at their rescaled positions. */
  function Rescaled(notes: seq<Note>, ps: seq<Position>): (r: seq<Note>)
    requires |ps| == |notes|
    ensures |r| == |notes|
    ensures forall k :: 0 <= k < |notes| ==> r[k] == notes[k].(position := ps[k])
  {
    seq(|notes|, k requires 0 <= k < |notes| => notes[k].(position := ps[k]))
  }

  /**
   * One note of a voice's pass: a note on the grid that belongs to the voice
   * goes to the resolver; any other note gives nothing and sets no flag.
   */
  function VoiceStep(symbols: map<string, string>, fontSize: Note -> nat, items: seq<AnnotationItem>,
                     rendered: seq<bool>, voice: seq<Note>, n: Note): (r: (Option<Fragment>, seq<bool>))
    requires |rendered| == |items|
    ensures |r.1| == |items|
  {
    if n.position.RegularPos? && InVoice(voice, n) then
      var s := Resolved(symbols, fontSize, items, rendered, n);
      (s.fragment, s.rendered)
    else (None, rendered)
  }

  /** The fragments of a voice's pass over the notes, in note order, and the flags after it. */
  function VoicePass(symbols: map<string, string>, fontSize: Note -> nat, items: seq<AnnotationItem>,
                     rendered: seq<bool>, voice: seq<Note>, ns: seq<Note>): (r: (seq<Option<Fragment>>, seq<bool>))
    requires |rendered| == |items|
    ensures |r.0| == |ns| && |r.1| == |items|
  {
    if |ns| == 0 then ([], rendered)
    else
      var before := VoicePass(symbols, fontSize, items, rendered, voice, ns[..|ns| - 1]);
      var step := VoiceStep(symbols, fontSize, items, before.1, voice, ns[|ns| - 1]);
      (before.0 + [step.0], step.1)
  }

  /**
   * One voice of one part: what buildAbcBar gives when its resolver only
   * answers for the voice's notes, and the flags after it. A part whose grid
   * cannot be built throws before any note is resolved.
   */
  function VoicePart(symbols: map<string, string>, fontSize: Note -> nat, items: seq<AnnotationItem>,
                     rendered: seq<bool>, voice: seq<Note>, notes: seq<Note>,
                     partSize: nat, partOffset: nat, measure: Measure): (r: (Result<string, Error>, seq<bool>))
    requires |rendered| == |items| && partSize > 0
    ensures |r.1| == |items|
  {
    match PartGrid(notes, partSize, partOffset, measure)
    case Failure(e) => (Failure(e), rendered)
    case Success(plan) =>
      var pass := VoicePass(symbols, fontSize, items, rendered, voice, Rescaled(notes, plan.1));
      (BarText(notes, pass.0, partSize, partOffset, measure), pass.1)
  }

  /** The two staves of a bar. */
  datatype Staves = Staves(upper: string, lower: string)

  /** The notes of part j: both voices, the upper one first, kept when in the bar and in the part. */
  function BarPartNotes(upper: seq<Note>, lower: seq<Note>, bar: nat, meter: Meter, j: nat): seq<Note> {
    PartNotes(upper + lower, bar, meter, j)
  }

  /** Where part j starts, in notes of the meter's measure. */
  function PartAnchor(meter: Meter, j: nat): nat {
    j * BeatsPerPart(meter)
  }

  /** Part j appended to both staves: the upper voice first, then the lower one, the flags carried through. */
  function PartStep(symbols: map<string, string>, fontSize: Note -> nat, items: seq<AnnotationItem>,
                    upper: seq<Note>, lower: seq<Note>, bar: nat, meter: Meter, before: (Staves, seq<bool>), j: nat)
    : (r: Result<(Staves, seq<bool>), Error>)
    requires |before.1| == |items|
    ensures r.Success? ==> |r.value.1| == |items|
  {
    var notes := BarPartNotes(upper, lower, bar, meter, j);
    var size := BeatsPerPart(meter);
    var up := VoicePart(symbols, fontSize, items, before.1, upper, notes, size, PartAnchor(meter, j), meter.measure);
    var upText :- up.0;
    var low := VoicePart(symbols, fontSize, items, up.1, lower, notes, size, PartAnchor(meter, j), meter.measure);
    var lowText :- low.0;
    Success((Staves(before.0.upper + upText, before.0.lower + lowText), low.1))
  }

  /** The staves after the first k parts, each starting with head, and the flags after them. */
  function BarUpTo(symbols: map<string, string>, fontSize: Note -> nat, items: seq<AnnotationItem>, rendered: seq<bool>,
                   upper: seq<Note>, lower: seq<Note>, bar: nat, meter: Meter, head: string, k: nat)
    : (r: Result<(Staves, seq<bool>), Error>)
    requires |rendered| == |items|
    ensures r.Success? ==> |r.value.1| == |items|
  {
    if k == 0 then Success((Staves(head, head), rendered))
    else
      var before :- BarUpTo(symbols, fontSize, items, rendered, upper, lower, bar, meter, head, k - 1);
      PartStep(symbols, fontSize, items, upper, lower, bar, meter, before, k - 1)
  }

  /** One bar as compositionToAbc writes it: a fresh resolver over the bar's annotations, then every part. */
  function BarStaves(notes: seq<Note>, bar: nat, meter: Meter, useLowerVoice: bool,
                     symbols: map<string, string>, fontSize: Note -> nat, head: string): Result<(Staves, seq<bool>), Error> {
    var items := Items(notes, useLowerVoice);
    BarUpTo(symbols, fontSize, items, seq(|items|, _ => false), UpperNotes(notes, useLowerVoice),
            LowerNotes(notes, useLowerVoice), bar, meter, head, PartsCount(meter))
  }

  // ------------------------------------------------------------------ methods

  /** The resolver calls of one buildAbcBar, with the voice's find in front of each. */
  method ResolvePass(res: NoteResolver, voice: seq<Note>, ns: seq<Note>) returns (rs: seq<Option<Fragment>>)
    requires res.Valid()
    modifies res
    ensures res.Valid()
    ensures (rs, res.rendered) == VoicePass(res.symbols, res.fontSize, res.items, old(res.rendered), voice, ns)
  {
    ghost var start := res.rendered;
    rs := [];
    for k := 0 to |ns|
      invariant res.Valid()
      invariant (rs, res.rendered) == VoicePass(res.symbols, res.fontSize, res.items, start, voice, ns[..k])
    {
      assert ns[..k + 1][..k] == ns[..k];
      var n := ns[k];
      if n.position.RegularPos? && InVoice(voice, n) {
        var text, fragment := res.Resolve(n);
        rs := rs + [fragment];
      } else {
        rs := rs + [None];
      }
    }
    assert ns[..|ns|] == ns;
  }

  /** buildAbcBar for one voice: the part's grid, the voice's fragments, the note map and the scan. */
  method BuildVoicePart(res: NoteResolver, voice: seq<Note>, notes: seq<Note>, partSize: nat, partOffset: nat,
                        measure: Measure) returns (r: Result<string, Error>)
    requires res.Valid() && partSize > 0
    modifies res
    ensures res.Valid()
    ensures (r, res.rendered)
              == VoicePart(res.symbols, res.fontSize, res.items, old(res.rendered), voice, notes, partSize, partOffset, measure)
  {
    var plan := PlanPart(notes, partSize, partOffset, measure);
    if plan.Failure? {
      return Failure(plan.error);
    }
    var (grid, adjusted) := plan.value;
    var rs := ResolvePass(res, voice, Rescaled(notes, adjusted));
    var noteMap := FillBuckets(grid, adjusted, rs);
    var text := ScanBar(grid, noteMap[..]);
    return Success(text);
  }

  /** One round of the part loop: part j of the bar's notes written for the upper voice, then for the lower one. */
  method WritePart(res: NoteResolver, upper: seq<Note>, lower: seq<Note>, bar: nat, meter: Meter, partsCount: nat,
                   staves: Staves, j: nat) returns (r: Result<Staves, Error>)
    requires res.Valid() && partsCount == PartsCount(meter) && j < partsCount
    modifies res
    ensures res.Valid()
    ensures r.Success? ==>
              PartStep(res.symbols, res.fontSize, res.items, upper, lower, bar, meter, (staves, old(res.rendered)), j)
                == Success((r.value, res.rendered))
    ensures r.Failure? ==>
              PartStep(res.symbols, res.fontSize, res.items, upper, lower, bar, meter, (staves, old(res.rendered)), j)
                == Failure(r.error)
  {
    var partNotes := PartNotes(upper + lower, bar, meter, j);
    PartLength(meter);
    var partSize := meter.beats / partsCount;
    assert partSize * j == PartAnchor(meter, j);
    var up := BuildVoicePart(res, upper, partNotes, partSize, partSize * j, meter.measure);
    if up.Failure? {
      return Failure(up.error);
    }
    var low := BuildVoicePart(res, lower, partNotes, partSize, partSize * j, meter.measure);
    if low.Failure? {
      return Failure(low.error);
    }
    return Success(Staves(staves.upper + up.value, staves.lower + low.value));
  }

  /** The part loop of compositionToAbc for one bar: each part is appended to the upper, then to the lower staff. */
  method WriteBar(res: NoteResolver, upper: seq<Note>, lower: seq<Note>, bar: nat, meter: Meter, head: string)
    returns (r: Result<Staves, Error>)
    requires res.Valid()
    modifies res
    ensures res.Valid()
    ensures r.Success? ==>
              BarUpTo(res.symbols, res.fontSize, res.items, old(res.rendered), upper, lower, bar, meter, head, PartsCount(meter))
                == Success((r.value, res.rendered))
    ensures r.Failure? ==>
              BarUpTo(res.symbols, res.fontSize, res.items, old(res.rendered), upper, lower, bar, meter, head, PartsCount(meter))
                == Failure(r.error)
  {
    ghost var start := res.rendered;
    var partsCount := if meter.beats % 3 == 0 then meter.beats / 3 else meter.beats;
    var upperBar, lowerBar := head, head;
    for j := 0 to partsCount
      invariant res.Valid()
      invariant BarUpTo(res.symbols, res.fontSize, res.items, start, upper, lower, bar, meter, head, j)
                  == Success((Staves(upperBar, lowerBar), res.rendered))
    {
      var step := WritePart(res, upper, lower, bar, meter, partsCount, Staves(upperBar, lowerBar), j);
      if step.Failure? {
        BarFailureStays(res.symbols, res.fontSize, res.items, start, upper, lower, bar, meter, head, j + 1, partsCount);
        return Failure(step.error);
      }
      upperBar, lowerBar := step.value.upper, step.value.lower;
    }
    r := Success(Staves(upperBar, lowerBar));
  }

  /** One bar of compositionToAbc, from the bar's notes to its two staves. */
  method BarToAbc(notes: seq<Note>, bar: nat, meter: Meter, useLowerVoice: bool,
                  symbols: map<string, string>, fontSize: Note -> nat, head: string) returns (r: Result<Staves, Error>)
    ensures r.Success? <==> BarStaves(notes, bar, meter, useLowerVoice, symbols, fontSize, head).Success?
    ensures r.Success? ==> r.value == BarStaves(notes, bar, meter, useLowerVoice, symbols, fontSize, head).value.0
  {
    var res := new NoteResolver(symbols, fontSize, Items(notes, useLowerVoice));
    r := WriteBar(res, UpperNotes(notes, useLowerVoice), LowerNotes(notes, useLowerVoice), bar, meter, head);
  }

  // ------------------------------------------------------------------ lemmas

  /** The code's part length, beats / partsCount, is the beats of one part, and part j starts j of them in. */
  lemma PartLength(meter: Meter)
    requires PartsCount(meter) > 0
    ensures meter.beats / PartsCount(meter) == BeatsPerPart(meter)
  {
    PartsTileTheBar(meter);
  }

  /** Once a part throws, the bar throws with the same error. */
  lemma {:induction false} BarFailureStays(symbols: map<string, string>, fontSize: Note -> nat, items: seq<AnnotationItem>,
                                           rendered: seq<bool>, upper: seq<Note>, lower: seq<Note>, bar: nat, meter: Meter,
                                           head: string, k: nat, n: nat)
    requires |rendered| == |items| && k <= n
    requires BarUpTo(symbols, fontSize, items, rendered, upper, lower, bar, meter, head, k).Failure?
    ensures BarUpTo(symbols, fontSize, items, rendered, upper, lower, bar, meter, head, n)
              == BarUpTo(symbols, fontSize, items, rendered, upper, lower, bar, meter, head, k)
    decreases n - k
  {
    if k < n {
      BarFailureStays(symbols, fontSize, items, rendered, upper, lower, bar, meter, head, k + 1, n);
    }
  }
}
