/**
 * Character and string helpers with Python's meaning: the whitespace set of
 * `str.isspace` (which is also what `str.strip()` removes and what `\s` and
 * `\S` match in a `str` regular expression), upper-casing as far as it can
 * produce ASCII letters, and decimal digit strings (`int(...)`, `str(...)`).
 */
module Text {

  /** Python's `str.isspace`. */
  predicate IsSpace(c: char) {
    ('\t' <= c <= '\r') || ('\U{1C}' <= c <= '\U{1F}') || c == ' ' ||
    c == '\U{85}' || c == '\U{A0}' || c == '\U{1680}' ||
    ('\U{2000}' <= c <= '\U{200A}') || c == '\U{2028}' || c == '\U{2029}' ||
    c == '\U{202F}' || c == '\U{205F}' || c == '\U{3000}'
  }

  predicate IsDigit(c: char) {
    '0' <= c <= '9'
  }

  /** Leading whitespace removed. */
  function TrimLeft(s: string): (r: string)
    ensures |r| <= |s| && r == s[|s| - |r|..]
    ensures r == [] || !IsSpace(r[0])
    ensures forall k :: 0 <= k < |s| - |r| ==> IsSpace(s[k])
  {
    if |s| > 0 && IsSpace(s[0]) then TrimLeft(s[1..]) else s
  }

  /** Trailing whitespace removed. */
  function TrimRight(s: string): (r: string)
    ensures |r| <= |s| && r == s[..|r|]
    ensures r == [] || !IsSpace(r[|r| - 1])
    ensures forall k :: |r| <= k < |s| ==> IsSpace(s[k])
  {
    if |s| > 0 && IsSpace(s[|s| - 1]) then TrimRight(s[..|s| - 1]) else s
  }

  /** Python's `str.strip()` with no argument. */
  function Strip(s: string): (r: string)
    ensures r == [] || (!IsSpace(r[0]) && !IsSpace(r[|r| - 1]))
  {
    TrimRight(TrimLeft(s))
  }

  /**
   * The character `str.upper` gives for `c` where that is an ASCII letter:
   * a-z, U+017F (long s, upper-cased to S) and U+0131 (dotless i, to I).
   * Every other character is returned unchanged; Python's upper-case form
   * of those is never an ASCII letter, so the two agree on every comparison
   * with an ASCII keyword made in this model.
   */
  function UpperChar(c: char): char {
    if 'a' <= c <= 'z' then (c as int - 32) as char
    else if c == '\U{17F}' then 'S'
    else if c == '\U{131}' then 'I'
    else c
  }

  function Upper(s: string): (r: string)
    ensures |r| == |s|
    ensures forall k :: 0 <= k < |s| ==> r[k] == UpperChar(s[k])
  {
    seq(|s|, k requires 0 <= k < |s| => UpperChar(s[k]))
  }

  /** ASCII `str.lower`, enough for the element class names it is applied to. */
  function LowerAscii(s: string): (r: string)
    ensures |r| == |s|
  {
    seq(|s|, k requires 0 <= k < |s| => if 'A' <= s[k] <= 'Z' then (s[k] as int + 32) as char else s[k])
  }

  /** Python's `needle in s` on strings: `needle` occurs at some position of `s`. */
  predicate Contains(s: string, needle: string)
    decreases |s|
  {
    |needle| <= |s| && (s[..|needle|] == needle || Contains(s[1..], needle))
  }

  /**
   * Whether `c` matches the character `u` of a pattern compiled with
   * `re.IGNORECASE`, where `u` is upper case: `u` itself, and for an ASCII
   * letter its lower case and, for I, S and K, the non-ASCII letters
   * Python's case-insensitive matching also accepts (U+0130 and U+0131 for
   * I, U+017F for S, U+212A Kelvin sign for K).
   */
  predicate MatchesLetter(c: char, u: char) {
    c == u || ('A' <= u <= 'Z' && c as int == u as int + 32) ||
    (u == 'I' && (c == '\U{130}' || c == '\U{131}')) ||
    (u == 'S' && c == '\U{17F}') ||
    (u == 'K' && c == '\U{212A}')
  }

  predicate IsKeyword(kw: string) {
    forall k :: 0 <= k < |kw| ==> 'A' <= kw[k] <= 'Z'
  }

  /** `w` matches the keyword `kw` case-insensitively, character for character. */
  predicate MatchesKeyword(w: string, kw: string) {
    |w| == |kw| && forall k :: 0 <= k < |kw| ==> MatchesLetter(w[k], kw[k])
  }

  /**
   * Upper-casing a case-insensitive match of a keyword that has no I and no K
   * gives back the keyword itself (capital I with dot and the Kelvin sign are
   * their own upper case, so the two letters are excluded).
   */
  lemma UpperOfKeywordMatch(w: string, kw: string)
    requires IsKeyword(kw)
    requires forall k :: 0 <= k < |kw| ==> kw[k] != 'I' && kw[k] != 'K'
    requires MatchesKeyword(w, kw)
    ensures Upper(w) == kw
  {
    assert forall k :: 0 <= k < |kw| ==> Upper(w)[k] == kw[k];
  }

  function DigitChar(d: nat): (c: char)
    requires d < 10
    ensures IsDigit(c)
  {
    ('0' as int + d) as char
  }

  /** Python's `str(n)` for a non-negative int. */
  function NatToString(n: nat): (s: string)
    ensures |s| >= 1
    ensures forall k :: 0 <= k < |s| ==> IsDigit(s[k])
    ensures |s| == 1 <==> n < 10
    ensures s[0] == '0' ==> n == 0
  {
    if n < 10 then [DigitChar(n)] else NatToString(n / 10) + [DigitChar(n % 10)]
  }

  /** Python's `int(s)` for a string of ASCII digits. */
  function DigitsValue(s: string): (n: int)
    requires forall k :: 0 <= k < |s| ==> IsDigit(s[k])
    ensures n >= 0
  {
    if s == [] then 0
    else assert IsDigit(s[|s| - 1]); 10 * DigitsValue(s[..|s| - 1]) + (s[|s| - 1] as int - '0' as int)
  }

  /** Different numbers print differently. */
  lemma {:induction false} NatToStringInjective(a: nat, b: nat)
    requires NatToString(a) == NatToString(b)
    ensures a == b
  {
    if a >= 10 && b >= 10 {
      var s := NatToString(a);
      assert NatToString(a / 10) == s[..|s| - 1] == NatToString(b / 10);
      NatToStringInjective(a / 10, b / 10);
      assert s[|s| - 1] == DigitChar(a % 10) == DigitChar(b % 10);
    }
  }

  /** `int(str(n)) == n`: reading back a printed number gives the number. */
  lemma {:induction false} DigitsValueOfNatToString(n: nat)
    ensures DigitsValue(NatToString(n)) == n
  {
    if n >= 10 {
      var s := NatToString(n);
      assert s[..|s| - 1] == NatToString(n / 10);
      DigitsValueOfNatToString(n / 10);
    }
  }
}
