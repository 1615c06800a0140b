/** Character classes and decimal numerals shared by the prompt builder, the
    response interpreter and the text clean-up. */
module Text {

  /** Python's `\d` in a str pattern, restricted to ASCII digits and the
      full-width digits of Japanese text. */
  predicate IsDigit(c: char) {
    '0' <= c <= '9' || '０' <= c <= '９'
  }

  /** The value `int()` gives a single digit character. */
  function DigitValue(c: char): (d: nat)
    requires IsDigit(c)
    ensures d < 10
  {
    if '0' <= c <= '9' then c as int - '0' as int else c as int - '０' as int
  }

  /** Python's `\s` in a str pattern and the characters `str.strip()` removes:
      the code points CPython's `Py_UNICODE_ISSPACE` accepts. */
  predicate IsSpace(c: char) {
    var n := c as int;
    || 0x09 <= n <= 0x0D
    || 0x1C <= n <= 0x20
    || n == 0x85 || n == 0xA0 || n == 0x1680
    || 0x2000 <= n <= 0x200A
    || n == 0x2028 || n == 0x2029 || n == 0x202F || n == 0x205F || n == 0x3000
  }

  predicate AllDigits(s: string) {
    forall i :: 0 <= i < |s| ==> IsDigit(s[i])
  }

  predicate AllSpace(s: string) {
    forall i :: 0 <= i < |s| ==> IsSpace(s[i])
  }

  /** Where the run of whitespace starting at `i` ends. */
  function SpaceRunEnd(t: string, i: nat): (e: nat)
    requires i <= |t|
    ensures i <= e <= |t|
    ensures forall k :: i <= k < e ==> IsSpace(t[k])
    ensures e == |t| || !IsSpace(t[e])
    decreases |t| - i
  {
    if i < |t| && IsSpace(t[i]) then SpaceRunEnd(t, i + 1) else i
  }

  /** A run of whitespace ends at the first other character and nowhere else. */
  lemma SpaceRunEndUnique(t: string, i: nat, e: nat)
    requires i <= e <= |t|
    requires forall k :: i <= k < e ==> IsSpace(t[k])
    requires e == |t| || !IsSpace(t[e])
    ensures SpaceRunEnd(t, i) == e
  {
  }

  /** `t[i..]` begins with `pat`. */
  predicate StartsAt(t: string, i: nat, pat: string) {
    i + |pat| <= |t| && t[i..i + |pat|] == pat
  }

  /** Python's `pat in t` for strings. */
  predicate Contains(t: string, pat: string) {
    exists i: nat :: i + |pat| <= |t| && StartsAt(t, i, pat)
  }

  /** `int(s)` for a string of decimal digits (leading zeros allowed). */
  function DigitsValue(s: string): nat
    requires AllDigits(s)
  {
    if s == [] then 0 else DigitsValue(s[..|s| - 1]) * 10 + DigitValue(s[|s| - 1])
  }

  /** `str(n)`: the shortest ASCII decimal numeral of `n`. */
  function NatToString(n: nat): (s: string)
    ensures |s| >= 1
    ensures forall i :: 0 <= i < |s| ==> '0' <= s[i] <= '9'
    ensures s[0] == '0' <==> n == 0
  {
    var last := ('0' as int + n % 10) as char;
    if n < 10 then [last] else NatToString(n / 10) + [last]
  }

  /** `int(str(n)) == n`: the numeral the prompt builder prints is read back
      as the same number by the response interpreter. */
  lemma {:induction false} NatToStringRoundTrip(n: nat)
    ensures AllDigits(NatToString(n))
    ensures DigitsValue(NatToString(n)) == n
  {
    var s := NatToString(n);
    if n >= 10 {
      var p := NatToString(n / 10);
      NatToStringRoundTrip(n / 10);
      assert s == p + [s[|s| - 1]];
      assert s[..|s| - 1] == p;
    }
  }
}
