/**
 * Character-level string helpers with the meaning Python gives them:
 * `str.isspace`, `str.strip()`, `str.replace` of one character by another,
 * decimal digit strings read by `int()` and written by `str()`.
 */
module Text {

  /** Python's `str.isspace()` for one character, listed by code point. */
  predicate IsSpace(c: char) {
    var n := c as int;
    || (0x09 <= n <= 0x0D)
    || (0x1C <= n <= 0x20)
    || n == 0x85 || n == 0xA0 || n == 0x1680
    || (0x2000 <= n <= 0x200A)
    || n == 0x2028 || n == 0x2029 || n == 0x202F || n == 0x205F || n == 0x3000
  }

  predicate AllSpace(s: string) {
    forall i :: 0 <= i < |s| ==> IsSpace(s[i])
  }

  /** Neither end of `s` is whitespace (vacuously true of the empty string). */
  predicate Trimmed(s: string) {
    |s| == 0 || (!IsSpace(s[0]) && !IsSpace(s[|s| - 1]))
  }

  /** Number of whitespace characters at the front of `s`. */
  function LeadingSpace(s: string): (n: nat)
    ensures n <= |s|
    ensures AllSpace(s[..n])
    ensures n == |s| || !IsSpace(s[n])
  {
    if |s| == 0 || !IsSpace(s[0]) then 0
    else
      var m := LeadingSpace(s[1..]);
      assert s[..1 + m] == [s[0]] + s[1..][..m];
      1 + m
  }

  /** Number of whitespace characters at the back of `s`. */
  function TrailingSpace(s: string): (n: nat)
    ensures n <= |s|
    ensures AllSpace(s[|s| - n..])
    ensures n == |s| || !IsSpace(s[|s| - n - 1])
  {
    if |s| == 0 || !IsSpace(s[|s| - 1]) then 0
    else
      var init := s[..|s| - 1];
      var m := TrailingSpace(init);
      assert s[|s| - (1 + m)..] == init[|init| - m..] + [s[|s| - 1]];
      1 + m
  }

  /**
   * `r` is what `str.strip()` leaves of `s`: a slice of `s` with only
   * whitespace cut away on either side, and no whitespace left at its ends.
   */
  ghost predicate StrippedFrom(r: string, s: string) {
    && Trimmed(r)
    && exists i, j :: 0 <= i <= j <= |s| && r == s[i..j] && AllSpace(s[..i]) && AllSpace(s[j..])
  }

  /** Python's `s.strip()` with no argument. */
  function Strip(s: string): (r: string)
    ensures |r| <= |s|
    ensures Trimmed(r)
    ensures |r| == 0 <==> AllSpace(s)
  {
    var i := LeadingSpace(s);
    var rest := s[i..];
    var j := |rest| - TrailingSpace(rest);
    assert |rest[..j]| == 0 ==> AllSpace(s) by {
      if |rest[..j]| == 0 {
        assert rest[j..] == rest;
        assert i == |s|;
        assert s[..i] == s;
      }
    }
    rest[..j]
  }

  /** `Strip` cuts only whitespace, from the two ends, and nothing else. */
  lemma StripMeaning(s: string)
    ensures StrippedFrom(Strip(s), s)
  {
    var i := LeadingSpace(s);
    var rest := s[i..];
    var j := |rest| - TrailingSpace(rest);
    assert Strip(s) == rest[..j] == s[i..i + j];
    assert s[i + j..] == rest[j..];
  }

  /** A string with no whitespace at either end is left as it is. */
  lemma StripTrimmed(s: string)
    requires Trimmed(s)
    ensures Strip(s) == s
  {
    assert s[0..] == s;
    assert s[..|s|] == s;
  }

  /** Stripping is idempotent: a stripped string has nothing left to strip. */
  lemma StripIdempotent(s: string)
    ensures Strip(Strip(s)) == Strip(s)
  {
    var r := Strip(s);
    assert LeadingSpace(r) == 0;
    assert TrailingSpace(r[LeadingSpace(r)..]) == 0;
    assert r[0..] == r;
  }

  /** Python's `s.replace(a, b)` for single characters `a` and `b`. */
  function ReplaceChar(s: string, a: char, b: char): (r: string)
    ensures |r| == |s|
    ensures forall i :: 0 <= i < |s| ==> r[i] == (if s[i] == a then b else s[i])
    ensures a != b ==> a !in r
  {
    if |s| == 0 then []
    else [if s[0] == a then b else s[0]] + ReplaceChar(s[1..], a, b)
  }

  function Min(a: int, b: int): int {
    if a <= b then a else b
  }

  /**
   * Python's slice `s[a:b]` for non-negative bounds: both bounds are clamped
   * to the length, and a slice whose start is not before its end is empty.
   */
  function Slice(s: string, a: nat, b: nat): (r: string)
    ensures |r| == if Min(a, |s|) <= Min(b, |s|) then Min(b, |s|) - Min(a, |s|) else 0
    ensures a <= b <= |s| ==> r == s[a..b]
    ensures forall i :: 0 <= i < |r| ==> r[i] == s[a + i]
  {
    var lo := Min(a, |s|);
    var hi := Min(b, |s|);
    if lo <= hi then s[lo..hi] else []
  }

  /** An ASCII decimal digit. */
  predicate IsDigit(c: char) {
    '0' <= c <= '9'
  }

  predicate AllDigits(s: string) {
    forall i :: 0 <= i < |s| ==> IsDigit(s[i])
  }

  function DigitValue(c: char): (d: nat)
    requires IsDigit(c)
    ensures d < 10
  {
    (c as int) - ('0' as int)
  }

  function DigitChar(d: nat): (c: char)
    requires d < 10
    ensures IsDigit(c) && DigitValue(c) == d
  {
    (('0' as int) + d) as char
  }

  /**
   * Python's `int(s)` on a run of ASCII digits (leading zeros allowed). The
   * empty run reads as 0, where `int("")` raises; the pattern's `\d+` never
   * hands over an empty run.
   */
  function DecimalValue(s: string): nat
    requires AllDigits(s)
  {
    if |s| == 0 then 0
    else DecimalValue(s[..|s| - 1]) * 10 + DigitValue(s[|s| - 1])
  }

  /** Python's `str(n)` for a natural number: digits only, no leading zero. */
  function NatToDecimal(n: nat): (r: string)
    ensures |r| > 0 && AllDigits(r)
    ensures r[0] != '0' || n == 0
  {
    if n < 10 then [DigitChar(n)]
    else NatToDecimal(n / 10) + [DigitChar(n % 10)]
  }

  /** Reading back a written number gives the number. */
  lemma {:induction false} DecimalRoundTrip(n: nat)
    ensures DecimalValue(NatToDecimal(n)) == n
  {
    var r := NatToDecimal(n);
    if n >= 10 {
      assert r[..|r| - 1] == NatToDecimal(n / 10);
      DecimalRoundTrip(n / 10);
    }
  }
}
