/**
 * The string operations the codec leans on: the first occurrence of a
 * character, split and join on a separator, dropping empty strings, and the
 * attribute sort (plain character-code order).
 */
module Texts {
  /** The index of the first c in s, when there is one. */
  function FirstIndex(s: string, c: char): (r: int)
    ensures -1 <= r < |s|
    ensures r == -1 <==> c !in s
    ensures r >= 0 ==> s[r] == c && c !in s[..r]
  {
    if |s| == 0 then -1
    else if s[0] == c then 0
    else
      var r := FirstIndex(s[1..], c);
      assert s == [s[0]] + s[1..];
      if r == -1 then -1
      else
        assert s[..r + 1] == [s[0]] + s[1..][..r];
        r + 1
  }

  /** The first c comes right after a prefix that lacks it. */
  lemma FirstIndexAfter(a: string, c: char, b: string)
    requires c !in a
    ensures FirstIndex(a + [c] + b, c) == |a|
  {
    var s := a + [c] + b;
    assert s[..|a|] == a;
    assert s[|a|] == c;
  }

  /** s.split(sep): the pieces between separators, in order; never empty. */
  function Split(s: string, sep: char): (r: seq<string>)
    ensures |r| > 0
    ensures forall i :: 0 <= i < |r| ==> sep !in r[i]
    decreases |s|
  {
    var k := FirstIndex(s, sep);
    if k == -1 then [s]
    else [s[..k]] + Split(s[k + 1..], sep)
  }

  /** xs.join(sep). */
  function Join(xs: seq<string>, sep: char): string
  {
    if |xs| == 0 then []
    else if |xs| == 1 then xs[0]
    else xs[0] + [sep] + Join(xs[1..], sep)
  }

  /** Splitting at the first separator. */
  lemma SplitAfter(a: string, sep: char, b: string)
    requires sep !in a
    ensures Split(a + [sep] + b, sep) == [a] + Split(b, sep)
  {
    var s := a + [sep] + b;
    FirstIndexAfter(a, sep, b);
    assert s[..|a|] == a;
    assert s[|a| + 1..] == b;
  }

  /** Splitting a join gives the pieces back when none contains the separator. */
  lemma {:induction false} SplitJoin(xs: seq<string>, sep: char)
    requires |xs| > 0
    requires forall i :: 0 <= i < |xs| ==> sep !in xs[i]
    ensures Split(Join(xs, sep), sep) == xs
    decreases |xs|
  {
    if |xs| > 1 {
      SplitAfter(xs[0], sep, Join(xs[1..], sep));
      SplitJoin(xs[1..], sep);
      assert xs == [xs[0]] + xs[1..];
    }
  }

  /** Joining the pieces of a split gives the text back. */
  lemma {:induction false} JoinSplit(s: string, sep: char)
    ensures Join(Split(s, sep), sep) == s
    decreases |s|
  {
    var k := FirstIndex(s, sep);
    if k != -1 {
      JoinSplit(s[k + 1..], sep);
      assert s == s[..k] + [sep] + s[k + 1..];
    }
  }

  /** filter((v) => !!v): the non-empty strings, in order. */
  function NonEmpty(xs: seq<string>): (r: seq<string>)
    ensures |r| <= |xs|
    ensures forall i :: 0 <= i < |r| ==> |r[i]| > 0
    ensures forall x :: x in r <==> x in xs && |x| > 0
  {
    if |xs| == 0 then []
    else if |xs[0]| > 0 then [xs[0]] + NonEmpty(xs[1..])
    else NonEmpty(xs[1..])
  }

  /** Dropping empty strings keeps a list without them as it is. */
  lemma {:induction false} NonEmptyKeepsFull(xs: seq<string>)
    requires forall i :: 0 <= i < |xs| ==> |xs[i]| > 0
    ensures NonEmpty(xs) == xs
    decreases |xs|
  {
    if |xs| > 0 {
      NonEmptyKeepsFull(xs[1..]);
      assert xs == [xs[0]] + xs[1..];
    }
  }

  /** The order of String.prototype.localeCompare, taken as character-code order. */
  predicate LexLeq(a: string, b: string) {
    |a| == 0 || (|b| > 0 && (a[0] < b[0] || (a[0] == b[0] && LexLeq(a[1..], b[1..]))))
  }

  lemma {:induction false} LexLeqTotal(a: string, b: string)
    ensures LexLeq(a, b) || LexLeq(b, a)
    decreases |a|
  {
    if |a| > 0 && |b| > 0 && a[0] == b[0] {
      LexLeqTotal(a[1..], b[1..]);
    }
  }

  predicate Ascending(xs: seq<string>) {
    forall i, j :: 0 <= i < j < |xs| ==> LexLeq(xs[i], xs[j])
  }

  predicate ConsecutiveAscending(xs: seq<string>) {
    forall i :: 0 <= i < |xs| - 1 ==> LexLeq(xs[i], xs[i + 1])
  }

  lemma {:induction false} LexLeqTransitive(a: string, b: string, c: string)
    requires LexLeq(a, b) && LexLeq(b, c)
    ensures LexLeq(a, c)
    decreases |a|
  {
    if |a| > 0 && a[0] == b[0] && b[0] == c[0] {
      LexLeqTransitive(a[1..], b[1..], c[1..]);
    }
  }

  /** Neighbours in order make the whole list ascending. */
  lemma {:induction false} ConsecutiveGivesAscending(xs: seq<string>)
    requires ConsecutiveAscending(xs)
    ensures Ascending(xs)
    decreases |xs|
  {
    if |xs| > 1 {
      var t := xs[1..];
      assert ConsecutiveAscending(t) by {
        forall i | 0 <= i < |t| - 1 ensures LexLeq(t[i], t[i + 1]) {
          assert t[i] == xs[i + 1] && t[i + 1] == xs[i + 2];
        }
      }
      ConsecutiveGivesAscending(t);
      forall i, j | 0 <= i < j < |xs| ensures LexLeq(xs[i], xs[j]) {
        if i > 0 {
          assert xs[i] == t[i - 1] && xs[j] == t[j - 1];
        } else if j > 1 {
          assert xs[1] == t[0] && xs[j] == t[j - 1];
          LexLeqTransitive(xs[0], xs[1], xs[j]);
        }
      }
    }
  }

  /** Inserts x in front of the first element it does not follow. */
  function InsertString(x: string, xs: seq<string>): (r: seq<string>)
    ensures |r| == |xs| + 1
    ensures multiset(r) == multiset(xs) + multiset{x}
  {
    if |xs| == 0 then [x]
    else if LexLeq(x, xs[0]) then [x] + xs
    else
      assert xs == [xs[0]] + xs[1..];
      [xs[0]] + InsertString(x, xs[1..])
  }

  lemma {:induction false} InsertStringAscending(x: string, xs: seq<string>)
    requires Ascending(xs)
    ensures Ascending(InsertString(x, xs))
    decreases |xs|
  {
    var r := InsertString(x, xs);
    if |xs| > 0 && !LexLeq(x, xs[0]) {
      var t := xs[1..];
      assert Ascending(t) by {
        forall i, j | 0 <= i < j < |t| ensures LexLeq(t[i], t[j]) {
          assert t[i] == xs[i + 1] && t[j] == xs[j + 1];
        }
      }
      InsertStringAscending(x, t);
      var it := InsertString(x, t);
      assert r == [xs[0]] + it;
      LexLeqTotal(x, xs[0]);
      assert ConsecutiveAscending(r) by {
        forall i | 0 <= i < |r| - 1 ensures LexLeq(r[i], r[i + 1]) {
          if i > 0 {
            assert r[i] == it[i - 1] && r[i + 1] == it[i];
          } else if |t| == 0 || LexLeq(x, t[0]) {
            assert r[1] == x;
          } else {
            assert r[1] == t[0] == xs[1];
          }
        }
      }
      ConsecutiveGivesAscending(r);
    } else if |xs| > 0 {
      assert ConsecutiveAscending(r) by {
        forall i | 0 <= i < |r| - 1 ensures LexLeq(r[i], r[i + 1]) {
          if i > 0 {
            assert r[i] == xs[i - 1] && r[i + 1] == xs[i];
          }
        }
      }
      ConsecutiveGivesAscending(r);
    }
  }

  /** Array.prototype.sort with the attribute comparator: an ascending permutation. */
  function SortStrings(xs: seq<string>): (r: seq<string>)
    ensures |r| == |xs|
    ensures multiset(r) == multiset(xs)
    ensures Ascending(r)
  {
    if |xs| == 0 then []
    else
      assert xs == xs[..|xs| - 1] + [xs[|xs| - 1]];
      InsertStringAscending(xs[|xs| - 1], SortStrings(xs[..|xs| - 1]));
      InsertString(xs[|xs| - 1], SortStrings(xs[..|xs| - 1]))
  }

  /** Sorting keeps the elements, so a property of every element survives it. */
  lemma SortedMembers(xs: seq<string>, i: int)
    requires 0 <= i < |SortStrings(xs)|
    ensures SortStrings(xs)[i] in xs
  {
    var r := SortStrings(xs);
    assert r[i] in multiset(r);
  }
}
