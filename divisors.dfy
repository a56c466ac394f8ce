/**
 * The recursive greatest common divisor of the notation engine, over
 * JavaScript numbers restricted to integers.
 */
module Divisors {
  import opened Wrappers
  import opened NotedTypes
  import opened Positions

  function Abs(x: int): nat {
    if x < 0 then -x else x
  }

  /** c divides x. */
  predicate Divides(c: int, x: int) {
    c != 0 && x % c == 0
  }

  /** JavaScript's `%`: the remainder takes the sign of the dividend. */
  function JsRem(a: int, b: int): (r: int)
    requires b != 0
    ensures Abs(r) < Abs(b)
    ensures a >= 0 ==> r >= 0
    ensures a < 0 ==> r <= 0
  {
    if a >= 0 then a % Abs(b) else -((-a) % Abs(b))
  }

  /** The quotient matching JsRem, so that a == JsQuot(a, b) * b + JsRem(a, b). */
  function JsQuot(a: int, b: int): int
    requires b != 0
  {
    var q := if a >= 0 then a / Abs(b) else -((-a) / Abs(b));
    if b < 0 then -q else q
  }

  lemma JsDivision(a: int, b: int)
    requires b != 0
    ensures a == JsQuot(a, b) * b + JsRem(a, b)
  {
    var n := Abs(b);
    if a >= 0 {
      assert a == (a / n) * n + a % n;
    } else {
      assert -a == ((-a) / n) * n + (-a) % n;
    }
  }

  lemma SmallMultiple(k: int, c: int)
    requires c != 0 && 0 <= k * c < Abs(c)
    ensures k == 0
  {
  }

  lemma MultipleIsDivisible(x: int, c: int)
    requires c != 0
    ensures Divides(c, x * c)
  {
    var y := x * c;
    assert y == (y / c) * c + y % c;
    assert y % c == (x - y / c) * c;
    SmallMultiple(x - y / c, c);
  }

  lemma DividesIsMultiple(c: int, x: int)
    requires Divides(c, x)
    ensures x == (x / c) * c
  {
  }

  /** Common divisors are closed under integer linear combinations. */
  lemma DividesCombination(c: int, x: int, y: int, k: int)
    requires Divides(c, x) && Divides(c, y)
    ensures Divides(c, x + k * y)
  {
    var qx := x / c;
    var qy := y / c;
    assert x == qx * c;
    assert y == qy * c;
    assert x + k * y == (qx + k * qy) * c;
    MultipleIsDivisible(qx + k * qy, c);
  }

  lemma DividesTransitive(a: int, b: int, x: int)
    requires Divides(a, b) && Divides(b, x)
    ensures Divides(a, x)
  {
    var qb := b / a;
    var qx := x / b;
    assert b == qb * a;
    assert x == qx * b;
    assert x == (qx * qb) * a;
    MultipleIsDivisible(qx * qb, a);
  }

  lemma DividesZero(c: int)
    requires c != 0
    ensures Divides(c, 0)
  {
  }

  lemma DividesSelf(c: int)
    requires c != 0
    ensures Divides(c, c)
  {
    MultipleIsDivisible(1, c);
  }

  /** The non-zero elements, in order. */
  function NonZero(s: seq<int>): (r: seq<int>)
    ensures |r| <= |s|
    ensures forall x :: x in r <==> x in s && x != 0
  {
    if |s| == 0 then []
    else if s[0] == 0 then NonZero(s[1..])
    else [s[0]] + NonZero(s[1..])
  }

  /** `[...new Set(s)]`: the first occurrence of every element, in order. */
  function Dedupe(s: seq<int>): (r: seq<int>)
    ensures |r| <= |s|
    ensures forall x :: x in r <==> x in s
    ensures forall i, j :: 0 <= i < j < |r| ==> r[i] != r[j]
  {
    if |s| == 0 then []
    else
      var rest := Dedupe(s[..|s| - 1]);
      if s[|s| - 1] in rest then rest else rest + [s[|s| - 1]]
  }

  /** The argument list as the code normalises it: zeros dropped, duplicates removed. */
  function Normalize(s: seq<int>): (r: seq<int>)
    ensures |r| <= |s|
    ensures forall x :: x in r <==> x in s && x != 0
    ensures forall i, j :: 0 <= i < j < |r| ==> r[i] != r[j]
  {
    Dedupe(NonZero(s))
  }

  /** The Euclidean measure of a two-element list: it drops with every remainder step. */
  function Rank(a: seq<int>): nat {
    if |a| == 2 then Abs(a[0]) + Abs(a[1]) + (if Abs(a[0]) > Abs(a[1]) then 1 else 0) else 0
  }

  lemma NormalizePair(x: int, y: int)
    requires y != 0 && Abs(x) < Abs(y)
    ensures x == 0 ==> Normalize([x, y]) == [y]
    ensures x != 0 ==> Normalize([x, y]) == [x, y]
  {
    assert [x, y][1..] == [y];
    assert NonZero([y]) == [y] by {
      assert [y][1..] == [];
    }
    assert Dedupe([y]) == [y] by {
      assert [y][..0] == [];
    }
    if x != 0 {
      assert NonZero([x, y]) == [x, y];
      assert [x, y][..1] == [x];
      assert Dedupe([x]) == [x] by {
        assert [x][..0] == [];
      }
    }
  }

  /** The remainder of a dividend smaller than the divisor is the dividend itself. */
  lemma SmallDividend(a: int, b: int)
    requires b != 0 && Abs(a) < Abs(b)
    ensures JsRem(a, b) == a
  {
    if a >= 0 {
      ModOfSmall(a, Abs(b));
    } else {
      ModOfSmall(-a, Abs(b));
    }
  }

  lemma ModOfSmall(a: int, n: int)
    requires 0 <= a < n
    ensures a % n == a
  {
  }

  lemma RemainderStepDecreases(a: seq<int>)
    requires |a| == 2 && a[0] != 0 && a[1] != 0 && a[0] != a[1]
    ensures |Normalize([JsRem(a[1], a[0]), a[0]])| < 2
         || (|Normalize([JsRem(a[1], a[0]), a[0]])| == 2 && Rank(Normalize([JsRem(a[1], a[0]), a[0]])) < Rank(a))
  {
    var r := JsRem(a[1], a[0]);
    NormalizePair(r, a[0]);
    if Abs(a[1]) < Abs(a[0]) {
      SmallDividend(a[1], a[0]);
    }
  }

  /**
   * gcd over integers (the arguments have passed the integer check). Lists of
   * more than two are folded from the left; two are reduced by one remainder
   * step, `gcd(a1 % a0, a0)`. The code's `args[0] === 0` test is always false
   * here, since zeros have been dropped.
   */
  function GcdInts(args: seq<int>): Option<int>
    decreases |Normalize(args)|, Rank(Normalize(args))
  {
    var a := Normalize(args);
    if |a| == 0 then None
    else if |a| == 1 then Some(a[0])
    else if |a| > 2 then
      assert |Normalize([a[0], a[1]])| <= 2;
      assert |Normalize([a[0]] + a[2..])| <= |a| - 1;
      var r := GcdInts([a[0], a[1]]);
      if r.Some? then
        assert |Normalize([r.value] + a[2..])| <= |a| - 1;
        GcdInts([r.value] + a[2..])
      else
        GcdInts(a[2..])
    else
      assert a[0] in a && a[1] in a;
      RemainderStepDecreases(a);
      GcdInts([JsRem(a[1], a[0]), a[0]])
  }

  /** gcd: throws on a non-integer argument, then on an empty argument list. */
  function Gcd(args: seq<real>): (r: Result<Option<int>, Error>)
    ensures r.Failure? <==> (exists x :: x in args && !IsInteger(x)) || |args| == 0
    ensures r.Failure? && (exists x :: x in args && !IsInteger(x)) ==> r.error == NonIntegerArguments
    ensures r.Failure? && (forall x :: x in args ==> IsInteger(x)) ==> r.error == NoArguments
    ensures r.Success? ==> IsGcdOf(r.value, Floors(args))
  {
    if exists x :: x in args && !IsInteger(x) then Failure(NonIntegerArguments)
    else if |args| == 0 then Failure(NoArguments)
    else
      GcdIsGreatestCommonDivisor(Floors(args));
      Success(GcdInts(Floors(args)))
  }

  function Floors(s: seq<real>): (r: seq<int>)
    ensures |r| == |s|
    ensures forall i :: 0 <= i < |s| ==> r[i] == s[i].Floor
  {
    if |s| == 0 then [] else [s[0].Floor] + Floors(s[1..])
  }

  predicate DividesAll(c: int, s: seq<int>) {
    forall x :: x in s ==> Divides(c, x)
  }

  predicate AllZero(s: seq<int>) {
    forall x :: x in s ==> x == 0
  }

  predicate AllNonNegative(s: seq<int>) {
    forall x :: x in s ==> x >= 0
  }

  /** g is what the code's gcd promises for the argument list s. */
  ghost predicate IsGcdOf(g: Option<int>, s: seq<int>) {
    && (g.None? <==> AllZero(s))
    && (g.Some? ==> DividesAll(g.value, s))
    && (g.Some? ==> forall c :: c != 0 && DividesAll(c, s) ==> Divides(c, g.value))
    && (g.Some? && AllNonNegative(s) ==> g.value > 0)
  }

  /** Dropping zeros and duplicates changes neither the common divisors nor the signs. */
  lemma NormalizeKeepsDivisors(args: seq<int>, c: int)
    requires c != 0
    ensures DividesAll(c, args) <==> DividesAll(c, Normalize(args))
  {
    DividesZero(c);
  }

  lemma NormalizeTransfer(args: seq<int>, g: Option<int>)
    requires IsGcdOf(g, Normalize(args))
    ensures IsGcdOf(g, args)
  {
    var a := Normalize(args);
    if |a| > 0 {
      assert a[0] in a;
    }
    if !AllZero(args) {
      var x :| x in args && x != 0;
      assert x in a;
    }
    if g.Some? {
      NormalizeKeepsDivisors(args, g.value);
      forall c | c != 0 && DividesAll(c, args) ensures Divides(c, g.value) {
        NormalizeKeepsDivisors(args, c);
      }
    }
  }

  lemma SingleCase(x: int)
    requires x != 0
    ensures IsGcdOf(Some(x), [x])
  {
    DividesSelf(x);
    assert x in [x];
  }

  lemma FoldMembers(a: seq<int>, r: int)
    requires |a| > 2
    ensures forall x :: x in [r] + a[2..] ==> x == r || x in a
    ensures forall x :: x in a ==> x == a[0] || x == a[1] || x in [r] + a[2..]
    ensures forall x :: x in [a[0], a[1]] ==> x in a
  {
    var rest := [r] + a[2..];
    forall x | x in a ensures x == a[0] || x == a[1] || x in rest {
      var i :| 0 <= i < |a| && a[i] == x;
      if i >= 2 {
        assert rest[i - 1] == x;
      }
    }
    forall x | x in rest ensures x == r || x in a {
      var i :| 0 <= i < |rest| && rest[i] == x;
      if i >= 1 {
        assert a[i + 1] == x;
      }
    }
  }

  /** A list of more than two: gcd(gcd(a0, a1), a2, ...). */
  lemma FoldCase(a: seq<int>, r: int, g: int)
    requires |a| > 2
    requires IsGcdOf(Some(r), [a[0], a[1]])
    requires IsGcdOf(Some(g), [r] + a[2..])
    ensures IsGcdOf(Some(g), a)
  {
    var pair := [a[0], a[1]];
    var rest := [r] + a[2..];
    assert a[0] in pair && a[1] in pair && r in rest;
    FoldMembers(a, r);
    assert !AllZero(a);
    assert DividesAll(g, a) by {
      forall x | x in a ensures Divides(g, x) {
        if x == a[0] || x == a[1] {
          DividesTransitive(g, r, x);
        }
      }
    }
    forall c | c != 0 && DividesAll(c, a) ensures Divides(c, g) {
      assert DividesAll(c, pair);
      assert DividesAll(c, rest);
    }
    if AllNonNegative(a) {
      assert AllNonNegative(pair);
      assert AllNonNegative(rest);
    }
  }

  /** Two arguments: gcd(a1 % a0, a0). */
  lemma StepCase(a: seq<int>, g: int)
    requires |a| == 2 && a[0] != 0
    requires IsGcdOf(Some(g), [JsRem(a[1], a[0]), a[0]])
    ensures IsGcdOf(Some(g), a)
  {
    var rem := JsRem(a[1], a[0]);
    var pair := [rem, a[0]];
    assert rem in pair && a[0] in pair && a[0] in a && a[1] in a;
    StepDivides(a[0], a[1], g);
    assert DividesAll(g, a) by {
      forall x | x in a ensures Divides(g, x) {
        assert x == a[0] || x == a[1];
      }
    }
    forall c | c != 0 && DividesAll(c, a) ensures Divides(c, g) {
      StepDivides(a[0], a[1], c);
      assert DividesAll(c, pair) by {
        forall x | x in pair ensures Divides(c, x) {
          assert x == rem || x == a[0];
        }
      }
    }
    if AllNonNegative(a) {
      forall x | x in pair ensures x >= 0 {
        assert x == rem || x == a[0];
      }
    }
  }

  /** A divisor of the divisor divides the dividend exactly when it divides the remainder. */
  lemma StepDivides(b: int, a: int, c: int)
    requires b != 0 && Divides(c, b)
    ensures Divides(c, a) <==> Divides(c, JsRem(a, b))
  {
    JsDivision(a, b);
    var q := JsQuot(a, b);
    if Divides(c, JsRem(a, b)) {
      DividesCombination(c, JsRem(a, b), b, q);
    }
    if Divides(c, a) {
      DividesCombination(c, a, b, -q);
      assert JsRem(a, b) == a + (-q) * b;
    }
  }

  /**
   * gcd returns nothing exactly when every argument is zero; otherwise it
   * returns a common divisor that every common divisor divides, positive when
   * the arguments are non-negative.
   */
  lemma {:induction false} GcdIsGreatestCommonDivisor(args: seq<int>)
    decreases |Normalize(args)|, Rank(Normalize(args))
    ensures IsGcdOf(GcdInts(args), args)
  {
    var a := Normalize(args);
    if |a| == 0 {
      assert IsGcdOf(None, a);
    } else if |a| == 1 {
      assert a[0] in a;
      SingleCase(a[0]);
      assert a == [a[0]];
    } else if |a| > 2 {
      assert a[0] in a && a[1] in a;
      var pair := [a[0], a[1]];
      assert |Normalize(pair)| <= 2;
      GcdIsGreatestCommonDivisor(pair);
      assert pair[0] in pair;
      var r := GcdInts(pair).value;
      var rest := [r] + a[2..];
      assert |Normalize(rest)| <= |a| - 1;
      GcdIsGreatestCommonDivisor(rest);
      assert rest[0] in rest;
      FoldCase(a, r, GcdInts(rest).value);
    } else {
      assert a[0] in a && a[1] in a;
      RemainderStepDecreases(a);
      var pair := [JsRem(a[1], a[0]), a[0]];
      GcdIsGreatestCommonDivisor(pair);
      assert pair[1] in pair;
      StepCase(a, GcdInts(pair).value);
    }
    NormalizeTransfer(args, GcdInts(args));
  }

  /** A positive divisor of a positive number is no larger than it. */
  lemma DivisorIsSmaller(c: int, x: int)
    requires c > 0 && x > 0 && Divides(c, x)
    ensures c <= x
  {
    DividesIsMultiple(c, x);
    var k := x / c;
    assert k >= 1;
    assert k * c >= c;
  }

  /** A positive member that divides every argument is the gcd. */
  lemma GcdIsDividingMember(g: Option<int>, s: seq<int>, x: int)
    requires IsGcdOf(g, s) && AllNonNegative(s)
    requires x in s && x > 0 && DividesAll(x, s)
    ensures g == Some(x)
  {
    assert !AllZero(s);
    DivisorIsSmaller(g.value, x);
    DivisorIsSmaller(x, g.value);
  }
}
