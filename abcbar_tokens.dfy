/**
 * The tokens buildAbcBar writes: the distinct notes of a tick, the four token
 * shapes, the length suffix and the tuplet marker read back, and the final
 * collapse of blank lines.
 */
module AbcBarTokens {
  import opened Wrappers
  import opened NotedTypes
  import opened Numerals
  import opened AbcBar
  import opened AbcBarFacts

  // ------------------------------------------------------------------ Distinct

  predicate Unique(xs: seq<string>) {
    forall j, k :: 0 <= j < k < |xs| ==> xs[j] != xs[k]
  }

  /** `[...new Set(xs)]` keeps exactly the strings of xs. */
  lemma {:induction false} DistinctMembers(xs: seq<string>)
    ensures forall x :: x in Distinct(xs) <==> x in xs
    decreases |xs|
  {
    if |xs| > 0 {
      var init := xs[..|xs| - 1];
      DistinctMembers(init);
      assert xs == init + [xs[|xs| - 1]];
    }
  }

  /** ... and holds each of them once. */
  lemma {:induction false} DistinctIsUnique(xs: seq<string>)
    ensures Unique(Distinct(xs))
    decreases |xs|
  {
    if |xs| > 0 {
      var init := xs[..|xs| - 1];
      DistinctIsUnique(init);
      DistinctMembers(init);
    }
  }

  /** Strings that are already distinct are kept as they are, in their order. */
  lemma {:induction false} DistinctOfUnique(xs: seq<string>)
    requires Unique(xs)
    ensures Distinct(xs) == xs
    decreases |xs|
  {
    if |xs| > 0 {
      var init := xs[..|xs| - 1];
      DistinctOfUnique(init);
      assert forall j :: 0 <= j < |init| ==> init[j] == xs[j];
      assert xs == init + [xs[|xs| - 1]];
    }
  }

  /** One distinct string exactly when all strings are the first one. */
  lemma DistinctIsSingle(xs: seq<string>)
    requires |xs| > 0
    ensures |Distinct(xs)| >= 1
    ensures |Distinct(xs)| == 1 <==> forall k :: 0 <= k < |xs| ==> xs[k] == xs[0]
  {
    DistinctMembers(xs);
    DistinctIsUnique(xs);
    var d := Distinct(xs);
    assert xs[0] in d;
    if |d| == 1 {
      forall k | 0 <= k < |xs| ensures xs[k] == xs[0] {
        assert xs[k] in d;
      }
    }
    if forall k :: 0 <= k < |xs| ==> xs[k] == xs[0] {
      if |d| > 1 {
        assert d[0] in xs && d[1] in xs;
        assert d[0] == xs[0] && d[1] == xs[0];
      }
    }
  }

  // -------------------------------------------------------------------- shapes

  /** The notes of fragments, each with the suffix. */
  function Bodies(fs: seq<Fragment>, suffix: string): (r: seq<string>)
    ensures |r| == |fs| && forall k :: 0 <= k < |fs| ==> r[k] == fs[k].body + suffix
  {
    seq(|fs|, k requires 0 <= k < |fs| => fs[k].body + suffix)
  }

  lemma SameSuffix(a: string, b: string, suffix: string)
    requires a + suffix == b + suffix
    ensures a == b
  {
    assert a == (a + suffix)[..|a|];
    assert b == (b + suffix)[..|b|];
  }

  /** A tick where no note landed is a rest. */
  lemma EmptyTickIsRest(suffix: string)
    ensures ShapeOf([], suffix) == RestShape
  {
  }

  /** A tick that holds only the placeholder is an invisible rest. */
  lemma PlaceholderTickIsBlank(suffix: string)
    ensures ShapeOf([Empty], suffix) == BlankShape
  {
    var x := EMPTY_KEY + suffix;
    assert seq(1, k requires 0 <= k < 1 => Key([Empty][k]) + suffix) == [x];
    assert [x][..0] == [];
    assert Distinct([x]) == [x];
    assert RegularNotes([Empty], suffix) == [x];
  }

  /**
   * A tick that holds fragments is a note when all of them write the same
   * note, and a chord of the distinct notes, in order of arrival, otherwise.
   */
  lemma FragmentTickShape(fs: seq<Fragment>, suffix: string)
    requires |fs| > 0
    requires forall k :: 0 <= k < |fs| ==> fs[k].body != EMPTY_KEY
    ensures (forall k :: 0 <= k < |fs| ==> fs[k].body == fs[0].body) ==>
              ShapeOf(Entries(fs), suffix) == NoteShape(fs[0].body + suffix)
    ensures (exists k :: 0 <= k < |fs| && fs[k].body != fs[0].body) ==>
              ShapeOf(Entries(fs), suffix) == ChordShape(Distinct(Bodies(fs, suffix)))
  {
    var b := Entries(fs);
    var xs := Bodies(fs, suffix);
    assert seq(|b|, k requires 0 <= k < |b| => Key(b[k]) + suffix) == xs;
    DistinctIsSingle(xs);
    DistinctMembers(xs);
    var d := Distinct(xs);
    if |d| == 1 {
      assert d[0] in xs;
      var j :| 0 <= j < |xs| && xs[j] == d[0];
      if d[0] == EMPTY_KEY + suffix {
        SameSuffix(fs[j].body, EMPTY_KEY, suffix);
      }
      forall k | 0 <= k < |fs| ensures fs[k].body == fs[0].body {
        SameSuffix(fs[k].body, fs[0].body, suffix);
      }
    }
  }

  /**
   * What a tick holds once the notes are placed decides its shape: a rest
   * where no note lands, an invisible rest where notes land and none
   * resolves, otherwise the resolved notes.
   */
  lemma BucketShape(ps: seq<Position>, rs: seq<Option<Fragment>>, offset: nat, t: int, suffix: string)
    requires |ps| == |rs|
    requires forall k :: 0 <= k < |rs| && rs[k].Some? ==> rs[k].value.body != EMPTY_KEY
    ensures !AnyLands(ps, offset, t) ==> ShapeOf(Bucket(ps, rs, offset, t), suffix) == RestShape
    ensures AnyLands(ps, offset, t) && |Arrivals(ps, rs, offset, t)| == 0 ==>
              ShapeOf(Bucket(ps, rs, offset, t), suffix) == BlankShape
    ensures |Arrivals(ps, rs, offset, t)| > 0 ==>
              ShapeOf(Bucket(ps, rs, offset, t), suffix).NoteShape? || ShapeOf(Bucket(ps, rs, offset, t), suffix).ChordShape?
  {
    var a := Arrivals(ps, rs, offset, t);
    if |a| > 0 {
      ArrivalsAreResolved(ps, rs, offset, t);
      forall k | 0 <= k < |a| ensures a[k].body != EMPTY_KEY {
        var j :| 0 <= j < |rs| && rs[j] == Some(a[k]);
      }
      FragmentTickShape(a, suffix);
    } else if AnyLands(ps, offset, t) {
      PlaceholderTickIsBlank(suffix);
    } else {
      assert !(exists k :: 0 <= k < |ps| && LandsOn(ps[k], offset, t) && rs[k].Some?);
    }
  }

  // ------------------------------------------------------------ read it back

  /**
   * The length an ABC suffix `n/d` or `/d` stands for: digits, a slash, a
   * canonical denominator; a missing numerator is 1.
   */
  function ReadLength(s: string): Option<real> {
    var (num, rest) := SplitDigits(s);
    if |rest| == 0 || rest[0] != '/' || !Canonical(rest[1..]) || (|num| > 0 && !Canonical(num)) then None
    else
      var n := if |num| == 0 then 1 else DigitsValue(num);
      var d := DigitsValue(rest[1..]);
      if d == 0 then None else Some(n as real / d as real)
  }

  /** The suffix written after a token reads back as the note value it was written for. */
  lemma SuffixReadsBack(dotted: bool, m: Measure)
    ensures ReadLength(Suffix(dotted, m)) == Some(NoteValue(dotted, m))
  {
    var den := if dotted then 2 * m else m;
    var digits := NatToString(den);
    var num := if dotted then "3" else "";
    assert Suffix(dotted, m) == num + ("/" + digits);
    SplitDigitsOf(num, "/" + digits);
    assert ("/" + digits)[1..] == digits;
    if dotted {
      assert DigitsValue("3") == 3 by {
        assert "3"[..0] == [];
      }
    }
  }

  /** The tuplet marker ` (p:q` read back: p and q. */
  function ReadTuplet(s: string): Option<(nat, nat)> {
    if |s| < 2 || s[..2] != " (" then None
    else
      var (p, rest) := SplitDigits(s[2..]);
      if |rest| == 0 || rest[0] != ':' || !Canonical(p) || !Canonical(rest[1..]) then None
      else Some((DigitsValue(p), DigitsValue(rest[1..])))
  }

  lemma TupletLabelReadsBack(t: Tuplet)
    ensures ReadTuplet(TupletLabel(t)) == Some((t.p as nat, t.q as nat))
  {
    TupletBounds(t);
    var p, q := NatToString(t.p as nat), NatToString(t.q as nat);
    var s := TupletLabel(t);
    assert s == " (" + (p + (":" + q));
    assert s[..2] == " (" && s[2..] == p + (":" + q);
    SplitDigitsOf(p, ":" + q);
    assert (":" + q)[1..] == q;
  }

  lemma TupletBounds(t: Tuplet)
    ensures t.p >= 3 && t.q >= 2
  {
  }

  /** A single tuplet tick never both opens and closes its tuplet. */
  lemma MarkersExclusive(g: Grid, grp: Group)
    ensures OpenMarker(g, grp) == [] || CloseMarker(g, grp) == []
  {
    if IsTupletTick(g, grp) {
      TupletBounds(g.tuplet.value);
    }
  }

  // ------------------------------------------------------------------ collapse

  predicate NoBlankLine(s: string) {
    forall k :: 0 <= k < |s| - 1 ==> !(s[k] == '\n' && s[k + 1] == '\n')
  }

  /** The characters of s other than line breaks. */
  function Printable(s: string): string {
    if |s| == 0 then [] else (if s[0] == '\n' then [] else [s[0]]) + Printable(s[1..])
  }

  /** A text without blank lines is left alone. */
  lemma {:induction false} CollapseWithoutBlankLine(s: string)
    requires NoBlankLine(s)
    ensures Collapse(s) == s
    decreases |s|
  {
    if |s| > 0 {
      assert NoBlankLine(s[1..]) by {
        forall k | 0 <= k < |s[1..]| - 1 ensures !(s[1..][k] == '\n' && s[1..][k + 1] == '\n') {
          assert s[1..][k] == s[k + 1] && s[1..][k + 1] == s[k + 2];
        }
      }
      CollapseWithoutBlankLine(s[1..]);
      assert s == [s[0]] + s[1..];
    }
  }

  /** Collapsing removes line breaks only: every other character stays, in order. */
  lemma {:induction false} CollapseKeepsPrintable(s: string)
    ensures Printable(Collapse(s)) == Printable(s)
    ensures |Collapse(s)| <= |s|
    decreases |s|
  {
    if |s| >= 2 && s[0] == '\n' && s[1] == '\n' {
      CollapseKeepsPrintable(s[2..]);
      assert s[1..][1..] == s[2..];
      assert Printable("\n" + Collapse(s[2..])) == Printable(Collapse(s[2..])) by {
        assert ("\n" + Collapse(s[2..]))[1..] == Collapse(s[2..]);
      }
    } else if |s| > 0 {
      CollapseKeepsPrintable(s[1..]);
      assert ([s[0]] + Collapse(s[1..]))[1..] == Collapse(s[1..]);
    }
  }
}
