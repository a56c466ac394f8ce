/**
 * The drum vocabulary notes are written in: the drum values, the note type of
 * annotations and the attributes a note may carry.
 */
module NotedDrums {
  import opened Wrappers
  import opened NotedTypes

  /** The values of DrumNote, in declaration order. */
  const DRUM_NOTES: seq<string> := ["hhc", "hho", "hhp", "sn", "ss", "bd", "ht", "lt", "ft", "rd", "rb", "cr", "cb"]

  const TYPE_ANNOT: string := "annot"
  const ATTR_ACCENT: string := "accent"
  const ATTR_GHOST: string := "ghost"
  const ATTR_FLAM: string := "flam"
  const ATTR_DRAG: string := "drag"
  const ATTR_ANNOT_BELOW: string := "below"
  const ATTR_ANNOT_BORDER: string := "border"

  /** `note.attributes?.includes(a)`: a note without attributes has none. */
  predicate HasAttribute(n: Note, a: string) {
    n.attributes.Some? && a in n.attributes.value
  }

  predicate IsAnnotation(n: Note) {
    n.kind == Some(TYPE_ANNOT)
  }
}
