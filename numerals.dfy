/**
 * Decimal digit strings: printing a natural number, and the strict integer
 * parse that only accepts the text the printer would produce (no empty
 * string, no leading zero).
 */
module Numerals {
  import opened Wrappers
  import opened NotedTypes

  predicate IsDigit(c: char) {
    '0' <= c <= '9'
  }

  predicate AllDigits(s: string) {
    forall i :: 0 <= i < |s| ==> IsDigit(s[i])
  }

  /** A digit string exactly as a number prints: not empty, and no leading zero unless it is "0". */
  predicate Canonical(s: string) {
    |s| > 0 && AllDigits(s) && (s[0] == '0' ==> |s| == 1)
  }

  function DigitValue(c: char): nat
    requires IsDigit(c)
  {
    (c as int - '0' as int) as nat
  }

  function DigitChar(d: nat): (c: char)
    requires d < 10
    ensures IsDigit(c) && DigitValue(c) == d
  {
    ('0' as int + d) as char
  }

  /** The number a digit string denotes, most significant digit first. */
  function DigitsValue(s: string): nat
    requires AllDigits(s)
  {
    if |s| == 0 then 0 else DigitsValue(s[..|s| - 1]) * 10 + DigitValue(s[|s| - 1])
  }

  /** String(n) for a natural number n. */
  function NatToString(n: nat): (s: string)
    ensures Canonical(s)
    ensures DigitsValue(s) == n
  {
    if n < 10 then [DigitChar(n)]
    else
      var s := NatToString(n / 10) + [DigitChar(n % 10)];
      assert s[..|s| - 1] == NatToString(n / 10);
      s
  }

  /**
   * parseInteger applied to a digit string: the JavaScript number of the text,
   * refused unless printing it back gives the same text.
   */
  function ParseInteger(s: string): (r: Result<nat, Error>)
    ensures r.Success? <==> Canonical(s)
    ensures r.Success? ==> r.value == DigitsValue(s)
    ensures r.Failure? ==> r.error == InvalidNumber(s)
  {
    if Canonical(s) then Success(DigitsValue(s)) else Failure(InvalidNumber(s))
  }

  /** A digit string that does not start with a zero denotes a positive number. */
  lemma {:induction false} LeadingDigitIsPositive(s: string)
    requires |s| > 0 && AllDigits(s) && s[0] != '0'
    ensures DigitsValue(s) > 0
    decreases |s|
  {
    if |s| > 1 {
      var h := s[..|s| - 1];
      assert h[0] == s[0];
      LeadingDigitIsPositive(h);
    }
  }

  /** A positive number followed by one more digit prints as its own text and that digit. */
  lemma PrintsWithLastDigit(m: nat, d: nat)
    requires m > 0 && d < 10
    ensures NatToString(m * 10 + d) == NatToString(m) + [DigitChar(d)]
  {
    var n := m * 10 + d;
    assert n / 10 == m && n % 10 == d;
  }

  /** Printing the value of a canonical digit string gives the string back. */
  lemma {:induction false} CanonicalPrintsBack(s: string)
    requires Canonical(s)
    ensures NatToString(DigitsValue(s)) == s
    decreases |s|
  {
    if |s| > 1 {
      var h := s[..|s| - 1];
      var c := s[|s| - 1];
      assert h[0] == s[0];
      LeadingDigitIsPositive(h);
      CanonicalPrintsBack(h);
      PrintsWithLastDigit(DigitsValue(h), DigitValue(c));
      assert DigitChar(DigitValue(c)) == c;
      assert s == h + [c];
    }
  }

  /** The strict parse reads back every printed number. */
  lemma ParsePrinted(n: nat)
    ensures ParseInteger(NatToString(n)) == Success(n)
  {
  }

  /** The strict parse accepts only what the printer produces. */
  lemma ParsedPrintsBack(s: string, n: nat)
    requires ParseInteger(s) == Success(n)
    ensures NatToString(n) == s
  {
    CanonicalPrintsBack(s);
  }

  /** A zero followed by more digits is refused. */
  lemma LeadingZeroIsRefused(t: string)
    requires |t| > 0 && AllDigits(t)
    ensures ParseInteger(['0'] + t) == Failure(InvalidNumber(['0'] + t))
  {
    assert (['0'] + t)[0] == '0';
  }

  /** The end of the run of digits that starts at i. */
  function DigitEnd(s: string, i: nat): (r: nat)
    requires i <= |s|
    ensures i <= r <= |s|
    ensures forall k :: i <= k < r ==> IsDigit(s[k])
    ensures r < |s| ==> !IsDigit(s[r])
    decreases |s| - i
  {
    if i < |s| && IsDigit(s[i]) then DigitEnd(s, i + 1) else i
  }

  /** The leading digits of s and what follows them (the regular expression \d*, greedily). */
  function SplitDigits(s: string): (r: (string, string))
    ensures s == r.0 + r.1
    ensures AllDigits(r.0)
    ensures r.1 == [] || !IsDigit(r.1[0])
  {
    var e := DigitEnd(s, 0);
    assert s == s[..e] + s[e..];
    (s[..e], s[e..])
  }

  /** A digit run followed by something else splits where the digits end. */
  lemma SplitDigitsOf(d: string, rest: string)
    requires AllDigits(d)
    requires rest == [] || !IsDigit(rest[0])
    ensures SplitDigits(d + rest) == (d, rest)
  {
    var s := d + rest;
    assert s[..|d|] == d && s[|d|..] == rest;
  }
}
