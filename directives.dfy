/**
 * optimizeDirectives: the last pass over a rendered tune. It drops the `%%`
 * directive lines that change nothing: one that the very next line
 * overrides, and one that sets the value the same directive already has.
 * Every other line is kept, in order.
 */
module Directives {
  import opened Texts
  import opened Trimming

  predicate IsDirective(l: string) {
    StartsWith(l, "%%")
  }

  /** `l.split(' ')[0]`: the line up to its first space. */
  function DirectiveName(l: string): (r: string)
    ensures StartsWith(l, r) && ' ' !in r
    ensures |r| < |l| ==> l[|r|] == ' '
  {
    var k := FirstIndex(l, ' ');
    if k == -1 then l else l[..k]
  }

  /**
   * `l.replace(directive, '').trim()`: the line starts with its directive, so
   * the first occurrence replaced is that prefix.
   */
  function DirectiveValue(l: string): string {
    Trim(l[|DirectiveName(l)|..])
  }

  /** A line of the text, with the directive and value the filter reads off a `%%` line. */
  datatype Line = Text(text: string) | Setting(text: string, name: string, value: string)

  function Classify(l: string): (r: Line)
    ensures r.text == l
    ensures r.Setting? <==> IsDirective(l)
    ensures r.Setting? ==> r.name == DirectiveName(l) && r.value == DirectiveValue(l)
  {
    if IsDirective(l) then Setting(l, DirectiveName(l), DirectiveValue(l)) else Text(l)
  }

  function ClassifyAll(lines: seq<string>): (r: seq<Line>)
    ensures |r| == |lines|
  {
    if |lines| == 0 then [] else ClassifyAll(lines[..|lines| - 1]) + [Classify(lines[|lines| - 1])]
  }

  lemma {:induction false} ClassifiedAt(lines: seq<string>, k: nat)
    requires k < |lines|
    ensures ClassifyAll(lines)[k] == Classify(lines[k])
  {
    if k < |lines| - 1 {
      ClassifiedAt(lines[..|lines| - 1], k);
    }
  }

  /** The line after line i starts with the directive of line i. */
  predicate ShadowedByNext(ls: seq<Line>, i: nat)
    requires i < |ls| && ls[i].Setting?
  {
    i + 1 < |ls| && StartsWith(ls[i + 1].text, ls[i].name)
  }

  /** The `lastDirective` map once ls[..i] have been filtered. */
  function LastSet(ls: seq<Line>, i: nat): map<string, string>
    requires i <= |ls|
    decreases i, 0
  {
    if i == 0 then map[]
    else if ls[i - 1].Setting? && Keeps(ls, i - 1) then LastSet(ls, i - 1)[ls[i - 1].name := ls[i - 1].value]
    else LastSet(ls, i - 1)
  }

  /** Whether the filter keeps line i. */
  predicate Keeps(ls: seq<Line>, i: nat)
    requires i < |ls|
    decreases i, 1
  {
    ls[i].Text?
    || (!ShadowedByNext(ls, i) && !(ls[i].name in LastSet(ls, i) && LastSet(ls, i)[ls[i].name] == ls[i].value))
  }

  /** The lines of ls[..i] the filter keeps, in order. */
  function KeptPrefix(ls: seq<Line>, i: nat): (r: seq<Line>)
    requires i <= |ls|
    ensures |r| <= i
  {
    if i == 0 then []
    else KeptPrefix(ls, i - 1) + (if Keeps(ls, i - 1) then [ls[i - 1]] else [])
  }

  /** The texts of the lines. */
  function TextsOf(ls: seq<Line>): (r: seq<string>)
    ensures |r| == |ls| && forall k :: 0 <= k < |ls| ==> r[k] == ls[k].text
  {
    seq(|ls|, k requires 0 <= k < |ls| => ls[k].text)
  }

  lemma TextsOfAppend(ls: seq<Line>, l: Line)
    ensures TextsOf(ls + [l]) == TextsOf(ls) + [l.text]
  {
  }

  /** The lines of a text, as the renderer splits it. */
  function LinesOf(input: string): seq<Line> {
    ClassifyAll(Split(Trim(input), '\n'))
  }

  /** What optimizeDirectives returns. */
  function Optimized(input: string): string {
    var ls := LinesOf(input);
    Join(TextsOf(KeptPrefix(ls, |ls|)), '\n')
  }

  /**
   * The filter's callback for line i: whether to keep the line, and the
   * `lastDirective` map after it.
   */
  method FilterLine(lines: seq<string>, i: nat, lastDirective: map<string, string>, ghost ls: seq<Line>)
    returns (keep: bool, last: map<string, string>)
    requires i < |lines| && ls == ClassifyAll(lines)
    requires lastDirective == LastSet(ls, i)
    ensures keep == Keeps(ls, i)
    ensures last == LastSet(ls, i + 1)
    ensures ls[i].text == lines[i]
  {
    ClassifiedAt(lines, i);
    if i + 1 < |lines| {
      ClassifiedAt(lines, i + 1);
    }
    var l := lines[i];
    keep := true;
    last := lastDirective;
    if StartsWith(l, "%%") {
      var directive := DirectiveName(l);
      var value := Trim(l[|directive|..]);
      if i + 1 < |lines| && StartsWith(lines[i + 1], directive) {
        keep := false;
      } else if directive in lastDirective && lastDirective[directive] == value {
        keep := false;
      } else {
        last := lastDirective[directive := value];
      }
    }
    assert keep == Keeps(ls, i);
    LastSetStep(ls, i);
  }

  /** One line further, the kept lines grow by that line exactly when it is kept. */
  lemma KeptPrefixStep(ls: seq<Line>, i: nat)
    requires i < |ls|
    ensures KeptPrefix(ls, i + 1) == KeptPrefix(ls, i) + (if Keeps(ls, i) then [ls[i]] else [])
  {
  }

  /** One line further, the map changes exactly by what a kept directive line sets. */
  lemma LastSetStep(ls: seq<Line>, i: nat)
    requires i < |ls|
    ensures LastSet(ls, i + 1) ==
            if ls[i].Setting? && Keeps(ls, i) then LastSet(ls, i)[ls[i].name := ls[i].value] else LastSet(ls, i)
  {
  }

  method OptimizeDirectives(input: string) returns (output: string)
    ensures output == Optimized(input)
  {
    var lines := Split(Trim(input), '\n');
    ghost var ls := ClassifyAll(lines);
    var lastDirective: map<string, string> := map[];
    var kept: seq<string> := [];
    ghost var keptLines: seq<Line> := [];
    for i := 0 to |lines|
      invariant lastDirective == LastSet(ls, i)
      invariant keptLines == KeptPrefix(ls, i)
      invariant kept == TextsOf(keptLines)
    {
      var keep;
      keep, lastDirective := FilterLine(lines, i, lastDirective, ls);
      KeptPrefixStep(ls, i);
      if keep {
        TextsOfAppend(keptLines, ls[i]);
        kept := kept + [lines[i]];
        keptLines := keptLines + [ls[i]];
      }
    }
    output := Join(kept, '\n');
  }

  // ------------------------------------------------------------------ facts

  /** Line j is a directive line for d that the filter kept. */
  predicate KeptFor(ls: seq<Line>, j: nat, d: string) {
    j < |ls| && ls[j].Setting? && ls[j].name == d && Keeps(ls, j)
  }

  /** No line strictly between j and i is a kept directive line for d. */
  predicate LatestBefore(ls: seq<Line>, j: nat, i: nat, d: string) {
    j < i && KeptFor(ls, j, d) && forall k :: j < k < i ==> !KeptFor(ls, k, d)
  }

  /**
   * The map holds, for each directive, the value of the latest kept line
   * setting it, and nothing for a directive no kept line has set.
   */
  lemma LastSetIsLatestKept(ls: seq<Line>, i: nat, d: string)
    requires i <= |ls|
    ensures d in LastSet(ls, i) <==> exists j :: 0 <= j < i && KeptFor(ls, j, d)
    ensures forall j: nat :: LatestBefore(ls, j, i, d) ==>
              d in LastSet(ls, i) && LastSet(ls, i)[d] == ls[j].value
  {
    LastSetHolds(ls, i, d);
    LastSetValue(ls, i, d);
  }

  lemma {:induction false} LastSetHolds(ls: seq<Line>, i: nat, d: string)
    requires i <= |ls|
    ensures d in LastSet(ls, i) <==> exists j :: 0 <= j < i && KeptFor(ls, j, d)
  {
    if i > 0 {
      LastSetHolds(ls, i - 1, d);
      LastSetStep(ls, i - 1);
      if !KeptFor(ls, i - 1, d) {
        assert (exists j :: 0 <= j < i && KeptFor(ls, j, d)) <==> exists j :: 0 <= j < i - 1 && KeptFor(ls, j, d);
      }
    }
  }

  lemma {:induction false} LastSetValue(ls: seq<Line>, i: nat, d: string)
    requires i <= |ls|
    ensures forall j: nat :: LatestBefore(ls, j, i, d) ==>
              d in LastSet(ls, i) && LastSet(ls, i)[d] == ls[j].value
  {
    if i > 0 {
      LastSetValue(ls, i - 1, d);
      LastSetStep(ls, i - 1);
      if KeptFor(ls, i - 1, d) {
        forall j: nat | LatestBefore(ls, j, i, d) ensures j == i - 1 {
        }
      } else {
        forall j: nat | LatestBefore(ls, j, i, d) ensures LatestBefore(ls, j, i - 1, d) {
        }
      }
    }
  }

  /** From any kept line for d on, there is a latest one. */
  lemma {:induction false} LatestExists(ls: seq<Line>, j: nat, i: nat, d: string)
    requires j < i <= |ls| && KeptFor(ls, j, d)
    ensures exists j': nat :: LatestBefore(ls, j', i, d)
    decreases i - j
  {
    if !LatestBefore(ls, j, i, d) {
      var k :| j < k < i && KeptFor(ls, k, d);
      LatestExists(ls, k, i, d);
    }
  }

  /**
   * The rule of the filter in terms of the lines alone: a line that is not a
   * directive is kept; a directive line is dropped exactly when the next
   * line starts with its directive or the latest kept line for that
   * directive set the same value.
   */
  lemma DropRule(ls: seq<Line>, i: nat)
    requires i < |ls|
    ensures ls[i].Text? ==> Keeps(ls, i)
    ensures ls[i].Setting? ==>
              (!Keeps(ls, i) <==>
                 ShadowedByNext(ls, i)
                 || exists j: nat :: LatestBefore(ls, j, i, ls[i].name) && ls[j].value == ls[i].value)
  {
    if ls[i].Setting? {
      var d := ls[i].name;
      LastSetIsLatestKept(ls, i, d);
      if d in LastSet(ls, i) {
        var j0 :| 0 <= j0 < i && KeptFor(ls, j0, d);
        LatestExists(ls, j0, i, d);
      }
    }
  }

  /** `a` is `b` with some elements left out. */
  predicate IsSubsequence<T(==)>(a: seq<T>, b: seq<T>)
    decreases |b|
  {
    if |a| == 0 then true
    else if |b| == 0 then false
    else (a[|a| - 1] == b[|b| - 1] && IsSubsequence(a[..|a| - 1], b[..|b| - 1]))
         || IsSubsequence(a, b[..|b| - 1])
  }

  /** The kept lines are a subsequence of the lines. */
  lemma {:induction false} KeptIsSubsequence(ls: seq<Line>, i: nat)
    requires i <= |ls|
    ensures IsSubsequence(KeptPrefix(ls, i), ls[..i])
  {
    if i > 0 {
      KeptIsSubsequence(ls, i - 1);
      var before := KeptPrefix(ls, i - 1);
      var b := ls[..i];
      assert b[..|b| - 1] == ls[..i - 1];
      if Keeps(ls, i - 1) {
        var a := before + [ls[i - 1]];
        assert a[..|a| - 1] == before && a[|a| - 1] == b[|b| - 1];
      } else {
        assert KeptPrefix(ls, i) == before;
      }
    }
  }

  /** The lines that are not directives, in order. */
  function Plain(ls: seq<Line>): seq<Line> {
    if |ls| == 0 then []
    else Plain(ls[..|ls| - 1]) + (if ls[|ls| - 1].Setting? then [] else [ls[|ls| - 1]])
  }

  /** Every line that is not a directive is kept, in order, and no other line is added. */
  lemma {:induction false} PlainLinesKept(ls: seq<Line>, i: nat)
    requires i <= |ls|
    ensures Plain(KeptPrefix(ls, i)) == Plain(ls[..i])
  {
    if i > 0 {
      PlainLinesKept(ls, i - 1);
      var before := KeptPrefix(ls, i - 1);
      var b := ls[..i];
      assert b[..|b| - 1] == ls[..i - 1] && b[|b| - 1] == ls[i - 1];
      if Keeps(ls, i - 1) {
        var a := before + [ls[i - 1]];
        assert a[..|a| - 1] == before;
      } else {
        assert ls[i - 1].Setting?;
        assert KeptPrefix(ls, i) == before;
      }
    }
  }

  /** A kept line stays in every later prefix. */
  lemma {:induction false} KeptLineCounts(ls: seq<Line>, j: nat, i: nat)
    requires j < i <= |ls| && Keeps(ls, j)
    ensures |KeptPrefix(ls, i)| >= 1
    decreases i
  {
    if j < i - 1 {
      KeptLineCounts(ls, j, i - 1);
    }
  }

  /**
   * Some line always survives: the last line is never overridden by a next
   * one, so it is dropped only after an earlier kept line set the same value.
   */
  lemma SomeLineSurvives(ls: seq<Line>)
    requires |ls| >= 1
    ensures |KeptPrefix(ls, |ls|)| >= 1
  {
    var n := |ls| - 1;
    if Keeps(ls, n) {
      KeptLineCounts(ls, n, |ls|);
    } else {
      var d := ls[n].name;
      LastSetIsLatestKept(ls, n, d);
      var j :| 0 <= j < n && KeptFor(ls, j, d);
      KeptLineCounts(ls, j, |ls|);
    }
  }

  /** Where no line is a directive every line is kept. */
  lemma {:induction false} AllKept(ls: seq<Line>, i: nat)
    requires i <= |ls|
    requires forall k :: 0 <= k < i ==> ls[k].Text?
    ensures KeptPrefix(ls, i) == ls[..i]
  {
    if i > 0 {
      AllKept(ls, i - 1);
      assert ls[..i] == ls[..i - 1] + [ls[i - 1]];
    }
  }

  /** A text without directive lines comes back trimmed and otherwise unchanged. */
  lemma WithoutDirectives(input: string)
    requires forall k :: 0 <= k < |LinesOf(input)| ==> LinesOf(input)[k].Text?
    ensures Optimized(input) == Trim(input)
  {
    var lines := Split(Trim(input), '\n');
    var ls := LinesOf(input);
    AllKept(ls, |ls|);
    assert ls[..|ls|] == ls;
    forall k | 0 <= k < |lines| ensures TextsOf(ls)[k] == lines[k] {
      ClassifiedAt(lines, k);
    }
    assert TextsOf(ls) == lines;
    JoinSplit(Trim(input), '\n');
  }
}
