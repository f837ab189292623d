/**
 * The handful of Python string operations the core relies on: `strip`,
 * ASCII `lower`, `find`/`rfind`, decimal digits and `str(int)`.
 */
module PyText {

  function Min(a: int, b: int): int {
    if a < b then a else b
  }

  /** Python's `str.isspace`, for the code points below 256. */
  predicate IsSpace(c: char) {
    var k := c as int;
    (9 <= k <= 13) || (28 <= k <= 32) || k == 0x85 || k == 0xA0
  }

  /**
   * The characters `int()` skips around a literal: it strips ASCII whitespace
   * and non-ASCII spaces, but not the separators U+001C..U+001F.
   */
  predicate IsIntSpace(c: char) {
    IsSpace(c) && !(28 <= c as int <= 31)
  }

  /** Number of leading characters of `s` that are whitespace. */
  function LeadingCount(s: string, ws: char -> bool): (n: nat)
    ensures n <= |s|
    ensures forall k :: 0 <= k < n ==> ws(s[k])
    ensures n < |s| ==> !ws(s[n])
  {
    if s == [] || !ws(s[0]) then 0 else 1 + LeadingCount(s[1..], ws)
  }

  /** Number of trailing characters of `s` that are whitespace. */
  function TrailingCount(s: string, ws: char -> bool): (n: nat)
    ensures n <= |s|
    ensures forall k :: |s| - n <= k < |s| ==> ws(s[k])
    ensures n < |s| ==> !ws(s[|s| - 1 - n])
  {
    if s == [] || !ws(s[|s| - 1]) then 0 else 1 + TrailingCount(s[..|s| - 1], ws)
  }

  /** `s.strip()` for the given notion of whitespace. */
  function StripWith(s: string, ws: char -> bool): (r: string)
    ensures LeadingCount(s, ws) + |r| <= |s|
    ensures r == s[LeadingCount(s, ws)..LeadingCount(s, ws) + |r|]
    ensures forall k :: LeadingCount(s, ws) + |r| <= k < |s| ==> ws(s[k])
    ensures r == [] || (!ws(r[0]) && !ws(r[|r| - 1]))
    ensures r == [] <==> forall k :: 0 <= k < |s| ==> ws(s[k])
    ensures (s == [] || (!ws(s[0]) && !ws(s[|s| - 1]))) ==> r == s
  {
    var i := LeadingCount(s, ws);
    if i == |s| then []
    else
      var j := TrailingCount(s, ws);
      s[i..|s| - j]
  }

  /** Python's `str.strip()` with no argument. */
  function Strip(s: string): string {
    StripWith(s, IsSpace)
  }

  /**
   * `str.lower()` of one character below U+0100: the capitals A..Z and
   * U+00C0..U+00DE other than U+00D7 map to the letter 32 code points above.
   */
  function LowerChar(c: char): char {
    if 'A' <= c <= 'Z' || (0xC0 <= c as int <= 0xDE && c as int != 0xD7) then (c as int + 32) as char else c
  }

  /** `str.lower()` on text below U+0100, where lowering keeps the length. */
  function Lower(s: string): (r: string)
    ensures |r| == |s|
    ensures forall k :: 0 <= k < |s| ==> r[k] == LowerChar(s[k])
  {
    seq(|s|, k requires 0 <= k < |s| => LowerChar(s[k]))
  }

  /** `pat` occurs in `s` starting at index `i`. */
  predicate MatchAt(s: string, pat: string, i: int) {
    0 <= i && i + |pat| <= |s| && s[i..i + |pat|] == pat
  }

  /** `s.find(pat, from)`: the first occurrence at or after `from`, or -1. */
  function Find(s: string, pat: string, from: nat): (r: int)
    requires from <= |s|
    ensures r == -1 || (from <= r && MatchAt(s, pat, r))
    ensures forall j :: from <= j && (r == -1 || j < r) ==> !MatchAt(s, pat, j)
    decreases |s| - from
  {
    if from + |pat| > |s| then -1
    else if s[from..from + |pat|] == pat then from
    else Find(s, pat, from + 1)
  }

  /** `s.rfind(pat, 0, end)`: the last occurrence lying wholly before `end`, or -1. */
  function RFind(s: string, pat: string, end: nat): (r: int)
    requires end <= |s|
    ensures r == -1 || (MatchAt(s, pat, r) && r + |pat| <= end)
    ensures forall j :: r < j && j + |pat| <= end ==> !MatchAt(s, pat, j)
    decreases end
  {
    if |pat| > end then -1
    else if s[end - |pat|..end] == pat then end - |pat|
    else RFind(s, pat, end - 1)
  }

  predicate IsDigit(c: char) {
    '0' <= c <= '9'
  }

  predicate AllDigits(s: string) {
    forall k :: 0 <= k < |s| ==> IsDigit(s[k])
  }

  /** The value of a string of decimal digits. */
  function DigitsValue(ds: string): nat
    requires AllDigits(ds)
    decreases |ds|
  {
    if ds == [] then 0 else DigitsValue(ds[..|ds| - 1]) * 10 + (ds[|ds| - 1] as int - '0' as int)
  }

  /** The shortest decimal digits of `n`. */
  function NatDigits(n: nat): (ds: string)
    ensures AllDigits(ds) && |ds| >= 1
    decreases n
  {
    (if n < 10 then [] else NatDigits(n / 10)) + [('0' as int + n % 10) as char]
  }

  lemma {:induction false} NatDigitsValue(n: nat)
    ensures DigitsValue(NatDigits(n)) == n
    decreases n
  {
    var ds := NatDigits(n);
    var prefix := if n < 10 then [] else NatDigits(n / 10);
    assert ds[..|ds| - 1] == prefix;
    if n >= 10 {
      NatDigitsValue(n / 10);
    }
  }

  /** Python's `str(n)` for an int. */
  function IntToString(n: int): string {
    if n < 0 then "-" + NatDigits(-n) else NatDigits(n)
  }
}
