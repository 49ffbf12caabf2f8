/**
 * The few string operations the player relies on, over `seq<char>`:
 * lower-casing (ASCII only), the ordering Python uses to sort strings,
 * `str.find`, `str(n)` / `int(s)` for the numbered search results, and
 * `str.rstrip()`.
 */
module Strings {

  // ---------------------------------------------------------------------
  // Lower-casing (ASCII letters only; other characters are kept)
  // ---------------------------------------------------------------------

  function LowerChar(c: char): char {
    if 'A' <= c <= 'Z' then (c as int + 32) as char else c
  }

  predicate IsLowerCased(s: string) {
    forall i :: 0 <= i < |s| ==> !('A' <= s[i] <= 'Z')
  }

  /** `s.lower()`: same length, every upper-case letter replaced by its lower-case form. */
  function Lower(s: string): (r: string)
    ensures |r| == |s|
    ensures forall i :: 0 <= i < |s| ==> r[i] == LowerChar(s[i])
    ensures IsLowerCased(r)
  {
    seq(|s|, i requires 0 <= i < |s| => LowerChar(s[i]))
  }

  /** Lower-casing a lower-cased string changes nothing, so a stored key is its own lookup key. */
  lemma LowerIdempotent(s: string)
    ensures Lower(Lower(s)) == Lower(s)
  {
  }

  // ---------------------------------------------------------------------
  // Python's ordering of strings: lexicographic by code point, a proper
  // prefix before the longer string.
  // ---------------------------------------------------------------------

  predicate LessEq(a: string, b: string) {
    |a| == 0 || (|b| > 0 && (a[0] < b[0] || (a[0] == b[0] && LessEq(a[1..], b[1..]))))
  }

  lemma {:induction false} LessEqReflexive(a: string)
    ensures LessEq(a, a)
  {
    if |a| > 0 {
      LessEqReflexive(a[1..]);
    }
  }

  lemma {:induction false} LessEqTotal(a: string, b: string)
    ensures LessEq(a, b) || LessEq(b, a)
  {
    if |a| > 0 && |b| > 0 && a[0] == b[0] {
      LessEqTotal(a[1..], b[1..]);
    }
  }

  lemma {:induction false} LessEqAntisymmetric(a: string, b: string)
    requires LessEq(a, b) && LessEq(b, a)
    ensures a == b
  {
    if |a| > 0 && |b| > 0 {
      LessEqAntisymmetric(a[1..], b[1..]);
      assert a == [a[0]] + a[1..] && b == [b[0]] + b[1..];
    }
  }

  lemma {:induction false} LessEqTransitive(a: string, b: string, c: string)
    requires LessEq(a, b) && LessEq(b, c)
    ensures LessEq(a, c)
  {
    if |a| > 0 && a[0] == b[0] && b[0] == c[0] {
      LessEqTransitive(a[1..], b[1..], c[1..]);
    }
  }

  // ---------------------------------------------------------------------
  // `text.find(pat)`: the first index at which `pat` occurs, or -1.
  // ---------------------------------------------------------------------

  predicate OccursAt(text: string, pat: string, j: int) {
    0 <= j && j + |pat| <= |text| && text[j..j + |pat|] == pat
  }

  function FindFrom(text: string, pat: string, i: nat): (r: int)
    requires i <= |text|
    ensures r == -1 || (i <= r <= |text| && OccursAt(text, pat, r))
    ensures r == -1 ==> forall j :: i <= j <= |text| ==> !OccursAt(text, pat, j)
    ensures r != -1 ==> forall j :: i <= j < r ==> !OccursAt(text, pat, j)
    decreases |text| - i
  {
    if OccursAt(text, pat, i) then i
    else if i == |text| then -1
    else FindFrom(text, pat, i + 1)
  }

  /** `text.find(pat)`; an empty `pat` is found at 0, as in Python. */
  function Find(text: string, pat: string): (r: int)
    ensures r == -1 || OccursAt(text, pat, r)
    ensures r == -1 <==> forall j :: !OccursAt(text, pat, j)
    ensures r != -1 ==> forall j :: 0 <= j < r ==> !OccursAt(text, pat, j)
  {
    FindFrom(text, pat, 0)
  }

  // ---------------------------------------------------------------------
  // `str(n)` and `int(s)` on decimal digit strings.
  // ---------------------------------------------------------------------

  predicate IsDigit(c: char) {
    '0' <= c <= '9'
  }

  function Digit(d: nat): char
    requires d < 10
  {
    ('0' as int + d) as char
  }

  /** `str(n)`: decimal digits, no sign and no leading zero. */
  function Decimal(n: nat): (r: string)
    ensures |r| > 0 && forall i :: 0 <= i < |r| ==> IsDigit(r[i])
    ensures |r| > 1 ==> r[0] != '0'
  {
    if n < 10 then [Digit(n)] else Decimal(n / 10) + [Digit(n % 10)]
  }

  /** `int(s)` for a string of decimal digits: zero exactly when every digit is '0'. */
  function ParseDecimal(s: string): (r: nat)
    requires forall i :: 0 <= i < |s| ==> IsDigit(s[i])
    ensures r == 0 <==> forall i :: 0 <= i < |s| ==> s[i] == '0'
  {
    if s == [] then 0
    else
      assert IsDigit(s[|s| - 1]);
      ParseDecimal(s[..|s| - 1]) * 10 + (s[|s| - 1] as int - '0' as int)
  }

  /** `int(str(n)) == n`. */
  lemma {:induction false} ParseDecimalOfDecimal(n: nat)
    ensures ParseDecimal(Decimal(n)) == n
  {
    if n >= 10 {
      var s := Decimal(n);
      assert s[..|s| - 1] == Decimal(n / 10);
      ParseDecimalOfDecimal(n / 10);
    }
  }

  /** `str(int(s)) == s` for a digit string without a leading zero. */
  lemma {:induction false} DecimalOfParseDecimal(s: string)
    requires |s| > 0 && forall i :: 0 <= i < |s| ==> IsDigit(s[i])
    requires |s| > 1 ==> s[0] != '0'
    ensures Decimal(ParseDecimal(s)) == s
  {
    var init := s[..|s| - 1];
    if init != [] {
      DecimalOfParseDecimal(init);
      var p := ParseDecimal(init);
      assert p != 0 by {
        assert init[0] == s[0];
      }
      assert s == init + [s[|s| - 1]];
    }
  }

  /** `str` is one-to-one on naturals, so a label names at most one result. */
  lemma DecimalInjective(m: nat, n: nat)
    requires Decimal(m) == Decimal(n)
    ensures m == n
  {
    ParseDecimalOfDecimal(m);
    ParseDecimalOfDecimal(n);
  }

  // ---------------------------------------------------------------------
  // `s.rstrip()`: drop trailing whitespace.
  // ---------------------------------------------------------------------

  /** `str.isspace()` on one character: the characters Unicode classes as whitespace. */
  predicate IsSpace(c: char) {
    ('\t' <= c <= '\r') || ('\U{1C}' <= c <= ' ') || c == '\U{85}' || c == '\U{A0}' ||
    c == '\U{1680}' || ('\U{2000}' <= c <= '\U{200A}') || c == '\U{2028}' || c == '\U{2029}' ||
    c == '\U{202F}' || c == '\U{205F}' || c == '\U{3000}'
  }

  function RStrip(s: string): (r: string)
    ensures |r| <= |s| && r == s[..|r|]
    ensures r == [] || !IsSpace(r[|r| - 1])
    ensures forall i :: |r| <= i < |s| ==> IsSpace(s[i])
  {
    if s == [] || !IsSpace(s[|s| - 1]) then s else RStrip(s[..|s| - 1])
  }
}
