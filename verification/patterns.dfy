/**
 The one shape of regular expression the core uses: a literal followed by a
 captured run of decimal digits, `/<literal>(\d+)/` with or without the `i`
 flag, applied with `String.prototype.match` (leftmost match, greedy digit
 run). Without the `u` flag a case-insensitive JavaScript match never folds
 a non-ASCII character onto an ASCII one, so for an ASCII literal folding
 ASCII letters alone is exact.
 */
module Patterns {
  import opened Base
  import opened Decimal

  /** ASCII lower-casing; every other character is left as it is. */
  function LowerAscii(c: char): char {
    if 'A' <= c <= 'Z' then (c as int + 32) as char else c
  }

  predicate CharMatches(c: char, p: char, ignoreCase: bool) {
    if ignoreCase then LowerAscii(c) == LowerAscii(p) else c == p
  }

  /** `lit` occurs in `s` at index `i`. */
  predicate LiteralAt(s: string, i: nat, lit: string, ignoreCase: bool) {
    i + |lit| <= |s| && forall k :: 0 <= k < |lit| ==> CharMatches(s[i + k], lit[k], ignoreCase)
  }

  /** The pattern matches at `i`: the literal, then at least one digit. */
  predicate MatchesAt(s: string, i: nat, lit: string, ignoreCase: bool) {
    LiteralAt(s, i, lit, ignoreCase) && i + |lit| < |s| && IsDigit(s[i + |lit|])
  }

  /** Length of the longest run of digits starting at `i`. */
  function DigitRun(s: string, i: nat): (n: nat)
    requires i <= |s|
    ensures i + n <= |s|
    ensures AllDigits(s[i..i + n])
    ensures i + n == |s| || !IsDigit(s[i + n])
    decreases |s| - i
  {
    if i < |s| && IsDigit(s[i]) then
      var rest := DigitRun(s, i + 1);
      assert s[i..i + 1 + rest] == [s[i]] + s[i + 1..i + 1 + rest];
      1 + rest
    else 0
  }

  /** The leftmost index at or after `from` where the pattern matches. */
  function FirstMatchFrom(s: string, lit: string, ignoreCase: bool, from: nat): (r: Option<nat>)
    ensures r.Some? ==> from <= r.value && MatchesAt(s, r.value, lit, ignoreCase)
    ensures r.Some? ==> forall j: nat :: from <= j < r.value ==> !MatchesAt(s, j, lit, ignoreCase)
    ensures r.None? ==> forall j: nat :: from <= j ==> !MatchesAt(s, j, lit, ignoreCase)
    decreases |s| - from
  {
    if from >= |s| then None
    else if MatchesAt(s, from, lit, ignoreCase) then Some(from)
    else FirstMatchFrom(s, lit, ignoreCase, from + 1)
  }

  /**
   `s.match(/<lit>(\d+)/)[1]`: the digits captured by the leftmost match,
   or nothing when the pattern occurs nowhere.
   */
  function CaptureDigits(s: string, lit: string, ignoreCase: bool): (r: Option<string>)
    ensures r.None? <==> forall j: nat :: !MatchesAt(s, j, lit, ignoreCase)
    ensures r.Some? ==> |r.value| > 0 && AllDigits(r.value)
    ensures r.Some? ==> exists i: nat :: MatchesAt(s, i, lit, ignoreCase) &&
                                    (forall j: nat :: j < i ==> !MatchesAt(s, j, lit, ignoreCase)) &&
                                    i + |lit| + |r.value| <= |s| &&
                                    r.value == s[i + |lit|..i + |lit| + |r.value|] &&
                                    (i + |lit| + |r.value| == |s| || !IsDigit(s[i + |lit| + |r.value|]))
  {
    match FirstMatchFrom(s, lit, ignoreCase, 0)
    case None => None
    case Some(i) =>
      var start := i + |lit|;
      var n := DigitRun(s, start);
      assert MatchesAt(s, i, lit, ignoreCase) && start + n <= |s|;
      Some(s[start..start + n])
  }
}
