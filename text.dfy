/**
 * Character classes and string helpers shared by the model: the .NET notion of
 * white space (`char.IsWhiteSpace`, the regular-expression class `\s`), ASCII
 * digits and letters, the lower-casing that the slug code relies on, and the
 * decimal rendering of integers used by string interpolation.
 */
module Text {

  /** `char.IsWhiteSpace` and the regex class `\s`: U+0009..U+000D, U+0085 and the
      Unicode space, line and paragraph separators. */
  predicate IsWhiteSpace(c: char) {
    || ('\t' <= c <= '\r')
    || c == ' '
    || c == '\U{0085}'
    || c == '\U{00A0}'
    || c == '\U{1680}'
    || ('\U{2000}' <= c <= '\U{200A}')
    || c == '\U{2028}'
    || c == '\U{2029}'
    || c == '\U{202F}'
    || c == '\U{205F}'
    || c == '\U{3000}'
  }

  /** `string.IsNullOrWhiteSpace` for a non-null string: empty, or white space only. */
  predicate IsBlank(s: string) {
    forall i :: 0 <= i < |s| ==> IsWhiteSpace(s[i])
  }

  /** The regex class `[0-9]` (ASCII digits only, as .NET matches it). */
  predicate IsAsciiDigit(c: char) {
    '0' <= c <= '9'
  }

  predicate IsAsciiLower(c: char) {
    'a' <= c <= 'z'
  }

  predicate IsAsciiUpper(c: char) {
    'A' <= c <= 'Z'
  }

  /** Lower-case mapping of one character, for the characters whose lower case
      the slug code can observe: ASCII, the Latin-1 capitals (not U+00D7),
      the Hungarian double-acute capitals, and the three compatibility capitals
      whose lower case is an ASCII or Latin-1 letter. Every other character is
      kept as it is. */
  function LowerChar(c: char): char {
    if IsAsciiUpper(c) || ('\U{00C0}' <= c <= '\U{00DE}' && c != '\U{00D7}') then
      (c as int + 32) as char
    else if c == 'Ő' then 'ő'
    else if c == 'Ű' then 'ű'
    else if c == '\U{0130}' then 'i'
    else if c == '\U{212A}' then 'k'
    else if c == '\U{212B}' then 'å'
    else c
  }

  /** `string.ToLower()`, character by character. */
  function Lower(s: string): string {
    seq(|s|, i requires 0 <= i < |s| => LowerChar(s[i]))
  }

  function DigitChar(d: nat): (c: char)
    requires d < 10
    ensures IsAsciiDigit(c)
  {
    ('0' as int + d) as char
  }

  /** Decimal rendering of a natural number, most significant digit first. */
  function NatToString(n: nat): string
    decreases n
  {
    if n < 10 then [DigitChar(n)] else NatToString(n / 10) + [DigitChar(n % 10)]
  }

  /** Only digits, at least one, and a single one exactly below ten. */
  lemma {:induction false} NatToStringDigits(n: nat)
    ensures var s := NatToString(n);
      0 < |s| && (forall i :: 0 <= i < |s| ==> IsAsciiDigit(s[i])) && (n < 10 <==> |s| == 1)
    decreases n
  {
    if 10 <= n {
      NatToStringDigits(n / 10);
    }
  }

  /** Decimal rendering of an integer as string interpolation writes it. */
  function IntToString(n: int): string {
    if n < 0 then "-" + NatToString(-n) else NatToString(n)
  }

  /** Different numbers are written differently. */
  lemma {:induction false} NatToStringInjective(a: nat, b: nat)
    requires NatToString(a) == NatToString(b)
    ensures a == b
    decreases a
  {
    NatToStringDigits(a);
    NatToStringDigits(b);
    if 10 <= a {
      var s := NatToString(a);
      assert s == NatToString(a / 10) + [DigitChar(a % 10)];
      assert s == NatToString(b / 10) + [DigitChar(b % 10)];
      assert s[..|s| - 1] == NatToString(a / 10);
      assert s[..|s| - 1] == NatToString(b / 10);
      NatToStringInjective(a / 10, b / 10);
      assert DigitChar(a % 10) == s[|s| - 1] == DigitChar(b % 10);
    }
  }

  /** A minus sign exactly for a negative number, then digits only. */
  lemma IntToStringSign(n: int)
    ensures var s := IntToString(n);
      0 < |s| && (s[0] == '-' <==> n < 0) &&
      forall i :: (if n < 0 then 1 else 0) <= i < |s| ==> IsAsciiDigit(s[i])
  {
    NatToStringDigits(if n < 0 then -n else n);
  }

  lemma IntToStringInjective(a: int, b: int)
    requires IntToString(a) == IntToString(b)
    ensures a == b
  {
    IntToStringSign(a);
    IntToStringSign(b);
    if a < 0 {
      assert IntToString(a)[1..] == NatToString(-a);
      assert IntToString(b)[1..] == NatToString(-b);
      NatToStringInjective(-a, -b);
    } else {
      NatToStringInjective(a, b);
    }
  }
}
