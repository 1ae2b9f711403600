/**
 * Character classes and string helpers with Python's meaning.
 *
 * Python's `re` module works on Unicode code points; this model classifies the
 * Latin-1 range (U+0000 .. U+00FF) exactly as CPython does and treats every
 * code point above U+00FF as a non-digit, non-word, non-space character with
 * no case mapping.
 */
module Text {

  /** `\d` on a `str`: a decimal digit (in Latin-1 only ASCII `0`..`9` are). */
  predicate IsDigit(c: char) { '0' <= c <= '9' }

  predicate IsAsciiLetter(c: char) { 'a' <= c <= 'z' || 'A' <= c <= 'Z' }

  predicate IsAsciiAlnum(c: char) { IsDigit(c) || IsAsciiLetter(c) }

  /** Latin-1 letters from U+00C0 to U+00FF, i.e. all but the signs U+00D7 and U+00F7. */
  predicate IsLatin1Letter(c: char)
  {
    '\U{C0}' <= c <= '\U{FF}' && c != '\U{D7}' && c != '\U{F7}'
  }

  /**
   * `\w` on a `str`: `c.isalnum() or c == '_'`.  Besides ASCII letters and
   * digits, Latin-1 counts the ordinal indicators, the micro sign, the
   * superscript digits and the vulgar fractions as alphanumeric.
   */
  predicate IsWordChar(c: char)
  {
    || IsAsciiAlnum(c)
    || c == '_'
    || IsLatin1Letter(c)
    || c == '\U{AA}' || c == '\U{BA}' || c == '\U{B5}'
    || c == '\U{B2}' || c == '\U{B3}' || c == '\U{B9}'
    || '\U{BC}' <= c <= '\U{BE}'
  }

  /** `\s` on a `str`, and `str.isspace()` for one character. */
  predicate IsSpace(c: char)
  {
    || '\t' <= c <= '\r'
    || '\U{1C}' <= c <= '\U{1F}'
    || c == ' '
    || c == '\U{85}'
    || c == '\U{A0}'
  }

  /** The character at `i` exists and is a word character. */
  predicate WordAt(s: string, i: int)
  {
    0 <= i < |s| && IsWordChar(s[i])
  }

  /** `\b` at position `i`: exactly one of the two neighbouring characters is a word character. */
  predicate Boundary(s: string, i: int)
  {
    WordAt(s, i - 1) != WordAt(s, i)
  }

  /** Python's `m * n` for a string `m` and a count `n >= 0`. */
  function Rep(m: string, n: nat): (r: string)
    ensures |r| == |m| * n
    ensures |m| == 1 ==> forall k :: 0 <= k < n ==> r[k] == m[0]
  {
    if n == 0 then [] else m + Rep(m, n - 1)
  }

  /** Python's `x[-n:]`: the last `n` characters, or all of `x` when it is shorter. */
  function Tail<T>(x: seq<T>, n: nat): (r: seq<T>)
    ensures |r| == if |x| <= n then |x| else n
    ensures r == x[|x| - |r|..]
  {
    if |x| <= n then x else x[|x| - n..]
  }

  /** Python's `x[:n]`: the first `n` characters, or all of `x` when it is shorter. */
  function Head<T>(x: seq<T>, n: nat): (r: seq<T>)
    ensures |r| == if |x| <= n then |x| else n
    ensures r == x[..|r|]
  {
    if |x| <= n then x else x[..n]
  }

  /** `str.lower()` for one character (Latin-1 upper-case letters map one to one). */
  function LowerChar(c: char): (r: char)
  {
    if 'A' <= c <= 'Z' then (c as int + 32) as char
    else if '\U{C0}' <= c <= '\U{DE}' && c != '\U{D7}' then (c as int + 32) as char
    else c
  }

  function Lower(s: string): (r: string)
    ensures |r| == |s|
    ensures forall k :: 0 <= k < |s| ==> r[k] == LowerChar(s[k])
  {
    if s == [] then [] else [LowerChar(s[0])] + Lower(s[1..])
  }

  /**
   * `str.upper()` for one character.  In Latin-1, `ß` becomes `SS`, `ÿ`
   * becomes U+0178 and `µ` becomes U+039C; the other lower-case letters map
   * to the letter 32 code points below.
   */
  function UpperChar(c: char): (r: string)
    ensures 1 <= |r| <= 2
  {
    if 'a' <= c <= 'z' then [(c as int - 32) as char]
    else if c == '\U{DF}' then "SS"
    else if c == '\U{FF}' then ['\U{178}']
    else if c == '\U{B5}' then ['\U{39C}']
    else if '\U{E0}' <= c <= '\U{FE}' && c != '\U{F7}' then [(c as int - 32) as char]
    else [c]
  }

  function Upper(s: string): (r: string)
    ensures |r| >= |s|
  {
    if s == [] then [] else UpperChar(s[0]) + Upper(s[1..])
  }

  /** `str.strip()`: drops leading and trailing whitespace. */
  function Strip(s: string): (r: string)
    ensures |r| <= |s|
    ensures r != [] ==> !IsSpace(r[0]) && !IsSpace(r[|r| - 1])
  {
    StripRight(StripLeft(s))
  }

  function StripLeft(s: string): (r: string)
    ensures |r| <= |s| && r == s[|s| - |r|..]
    ensures r != [] ==> !IsSpace(r[0])
    ensures forall k :: 0 <= k < |s| - |r| ==> IsSpace(s[k])
  {
    if s != [] && IsSpace(s[0]) then StripLeft(s[1..]) else s
  }

  function StripRight(s: string): (r: string)
    ensures |r| <= |s| && r == s[..|r|]
    ensures r != [] ==> !IsSpace(r[|r| - 1])
    ensures forall k :: |r| <= k < |s| ==> IsSpace(s[k])
  {
    if s != [] && IsSpace(s[|s| - 1]) then StripRight(s[..|s| - 1]) else s
  }

  /** Python's `str(n)` for an `int`. */
  function IntToString(n: int): (r: string)
    ensures r != []
  {
    if n < 0 then "-" + NatToString(-n) else NatToString(n)
  }

  function NatToString(n: nat): (r: string)
    ensures r != []
    ensures forall k :: 0 <= k < |r| ==> IsDigit(r[k])
  {
    if n < 10 then [DigitChar(n)] else NatToString(n / 10) + [DigitChar(n % 10)]
  }

  function DigitChar(d: nat): (c: char)
    requires d < 10
    ensures IsDigit(c)
  {
    ('0' as int + d) as char
  }

  /** Python's `sep.join(parts)`. */
  function Join(parts: seq<string>, sep: string): string
  {
    if parts == [] then []
    else if |parts| == 1 then parts[0]
    else parts[0] + sep + Join(parts[1..], sep)
  }

  /** The length of the run of non-space characters at the start of `s`. */
  function WordLength(s: string): (n: nat)
    ensures n <= |s|
    ensures forall k :: 0 <= k < n ==> !IsSpace(s[k])
    ensures n < |s| ==> IsSpace(s[n])
  {
    if s == [] || IsSpace(s[0]) then 0 else 1 + WordLength(s[1..])
  }

  /** `str.split()` with no separator: the maximal runs of non-whitespace characters. */
  function Words(s: string): (ws: seq<string>)
    decreases |s|
  {
    var t := StripLeft(s);
    if t == [] then []
    else
      var n := WordLength(t);
      [t[..n]] + Words(t[n..])
  }
}
