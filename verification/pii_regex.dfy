/**
 * Python's `re.sub(pattern, repl, text)` for the patterns of the PII masking
 * engine (project/simple_rag/utils/data_masking.py).
 *
 * `re.sub` scans the text from left to right; at each position it asks the
 * pattern for a match; a match is replaced and the scan resumes at its end, a
 * failed position is copied and the scan moves one character on.  Matching
 * always inspects the ORIGINAL text (so `\b` looks at the original neighbour
 * of a match even after it has been replaced).  `MatchAt` gives, for every
 * pattern, the outcome of the backtracking engine at one position; none of the
 * patterns can match the empty string.
 */
module PiiRegex {
  import opened Common
  import opened Text
  import opened Seqs

  /** The character classes the patterns use. */
  datatype CharClass =
    | Digits        // \d
    | Spaces        // \s
    | LocalChars    // [a-zA-Z0-9._%+-]
    | DomainChars   // [a-zA-Z0-9.-]
    | AsciiLetters  // [a-zA-Z]
    | NameChars     // [A-Za-zÀ-ÿ ]
    | SepChars      // [:\s]

  predicate InClass(c: char, k: CharClass)
  {
    match k
    case Digits => IsDigit(c)
    case Spaces => IsSpace(c)
    case LocalChars => IsAsciiAlnum(c) || c == '.' || c == '_' || c == '%' || c == '+' || c == '-'
    case DomainChars => IsAsciiAlnum(c) || c == '.' || c == '-'
    case AsciiLetters => IsAsciiLetter(c)
    case NameChars => IsAsciiLetter(c) || c == ' ' || '\U{C0}' <= c <= '\U{FF}'
    case SepChars => c == ':' || IsSpace(c)
  }

  /** The length of the maximal run of class `k` starting at `i` (what a greedy `k*` consumes). */
  function Run(s: string, i: nat, k: CharClass): (n: nat)
    requires i <= |s|
    ensures i + n <= |s|
    ensures forall j :: i <= j < i + n ==> InClass(s[j], k)
    ensures i + n == |s| || !InClass(s[i + n], k)
    decreases |s| - i
  {
    if i < |s| && InClass(s[i], k) then 1 + Run(s, i + 1, k) else 0
  }

  /** `n` digits start at `i`. */
  predicate DigitsAt(s: string, i: nat, n: nat)
  {
    i + n <= |s| && forall j :: i <= j < i + n ==> IsDigit(s[j])
  }

  /**
   * One position of a fixed-width pattern: `#` is `\d`, `?` is `[\dXx]`,
   * every other character stands for itself.
   */
  predicate ShapeChar(c: char, p: char)
  {
    if p == '#' then IsDigit(c)
    else if p == '?' then IsDigit(c) || c == 'X' || c == 'x'
    else c == p
  }

  predicate Fits(s: string, i: nat, shape: string)
  {
    i + |shape| <= |s| && forall k :: 0 <= k < |shape| ==> ShapeChar(s[i + k], shape[k])
  }

  /** Simple case folding used by `re.IGNORECASE` on literal characters. */
  function Fold(c: char): char { LowerChar(c) }

  /** The literal `keyword` occurs at `i`, compared case-insensitively. */
  predicate FoldEq(s: string, i: nat, keyword: string)
  {
    i + |keyword| <= |s| && forall k :: 0 <= k < |keyword| ==> Fold(s[i + k]) == Fold(keyword[k])
  }

  /** The patterns of the masking engine. */
  datatype Rule =
    | /** `\b<shape>\b`, replaced through `template`: `K` keeps the matched
          character, `M` emits the mask string, other characters are emitted as they are. */
      Fixed(shape: string, template: string)
    | /** `\b<shape>\b`, replaced by a replacement STRING built from the mask:
          `M` in `template` is the mask string and every other character is
          itself; `re` then decodes the escapes of that string (`ParseTemplate`). */
      Template(shape: string, template: string)
    | /** `\b([a-zA-Z0-9._%+-]+)(@[a-zA-Z0-9.-]+\.[a-zA-Z]{2,})\b` */
      Email
    | /** `\(\d{2}\)\s*\d{4,5}-\d{4}` */
      PhoneParen
    | /** `\b\d{2}\s+\d{4,5}-\d{4}\b` */
      PhoneSpaced
    | /** `(<keyword>\.?[:\s]+)(\d{6,10})\b` with IGNORECASE; the `\.?` only when `optionalDot`. */
      Labelled(keyword: string, optionalDot: bool)
    | /** `(Nome:\s*)([A-Za-zÀ-ÿ ]+?)(?=\n|$)` with IGNORECASE and MULTILINE. */
      NameLine

  /**
   * A match starting at some position `i`: group 1 is `[i, mid)` and group 2
   * is `[mid, end)` for the patterns that have groups.  For the PHONE patterns
   * `mid` is where the middle digit block starts.
   */
  datatype Span = Span(mid: nat, end: nat)

  predicate SpanFrom(s: string, i: nat, sp: Span)
  {
    i <= sp.mid <= sp.end <= |s| && i < sp.end
  }

  function MatchFixed(s: string, i: nat, shape: string): (o: Option<Span>)
    requires i <= |s|
    ensures o.Some? ==> SpanFrom(s, i, o.value) && o.value.end == i + |shape|
  {
    if |shape| > 0 && Boundary(s, i) && Fits(s, i, shape) && Boundary(s, i + |shape|)
    then Some(Span(i, i + |shape|))
    else None
  }

  /**
   * After `@` at `at`, `[a-zA-Z0-9.-]+` first takes the whole run and gives
   * characters back one at a time: `j` is the number it currently keeps.  The
   * first `j` (from the largest down) followed by `.`, two or more letters and
   * a word boundary decides the match.
   */
  function EmailDomainEnd(s: string, at: nat, j: nat): (o: Option<nat>)
    requires at + 1 + j <= |s|
    ensures o.Some? ==> at + 1 < o.value <= |s|
    decreases j
  {
    if j == 0 then None
    else
      var p := at + 1 + j;
      if p < |s| && s[p] == '.' && Run(s, p + 1, AsciiLetters) >= 2
         && !WordAt(s, p + 1 + Run(s, p + 1, AsciiLetters))
      then Some(p + 1 + Run(s, p + 1, AsciiLetters))
      else EmailDomainEnd(s, at, j - 1)
  }

  function MatchEmail(s: string, i: nat): (o: Option<Span>)
    requires i <= |s|
    ensures o.Some? ==> SpanFrom(s, i, o.value) && i < o.value.mid < |s| && s[o.value.mid] == '@'
  {
    var n := Run(s, i, LocalChars);
    var at := i + n;
    if !Boundary(s, i) || n == 0 || at >= |s| || s[at] != '@' then None
    else
      match EmailDomainEnd(s, at, Run(s, at + 1, DomainChars))
      case None => None
      case Some(e) => Some(Span(at, e))
  }

  /** `\d{4,5}-` at `p`: the greedy quantifier tries five digits, then four. */
  function MiddleLen(s: string, p: nat): (o: Option<nat>)
    ensures o.Some? ==> (o.value == 4 || o.value == 5) && DigitsAt(s, p, o.value)
                        && p + o.value < |s| && s[p + o.value] == '-'
  {
    if DigitsAt(s, p, 5) && p + 5 < |s| && s[p + 5] == '-' then Some(5)
    else if DigitsAt(s, p, 4) && p + 4 < |s| && s[p + 4] == '-' then Some(4)
    else None
  }

  function MatchPhoneParen(s: string, i: nat): (o: Option<Span>)
    requires i <= |s|
    ensures o.Some? ==> SpanFrom(s, i, o.value)
  {
    if i + 4 <= |s| && s[i] == '(' && DigitsAt(s, i + 1, 2) && s[i + 3] == ')' then
      var p := i + 4 + Run(s, i + 4, Spaces);
      match MiddleLen(s, p)
      case None => None
      case Some(d) => if DigitsAt(s, p + d + 1, 4) then Some(Span(p, p + d + 5)) else None
    else None
  }

  function MatchPhoneSpaced(s: string, i: nat): (o: Option<Span>)
    requires i <= |s|
    ensures o.Some? ==> SpanFrom(s, i, o.value)
  {
    if Boundary(s, i) && DigitsAt(s, i, 2) && Run(s, i + 2, Spaces) > 0 then
      var p := i + 2 + Run(s, i + 2, Spaces);
      match MiddleLen(s, p)
      case None => None
      case Some(d) =>
        if DigitsAt(s, p + d + 1, 4) && Boundary(s, p + d + 5) then Some(Span(p, p + d + 5)) else None
    else None
  }

  /**
   * `(<keyword>\.?[:\s]+)(\d{6,10})\b`: the separator run and the optional dot
   * are greedy and giving characters back cannot help (a digit must follow);
   * `\d{6,10}\b` succeeds exactly when the digit run has 6 to 10 digits and
   * is not followed by a word character.
   */
  function MatchLabelled(s: string, i: nat, keyword: string, optionalDot: bool): (o: Option<Span>)
    requires i <= |s|
    ensures o.Some? ==> SpanFrom(s, i, o.value) && o.value.end - o.value.mid >= 6
  {
    if !FoldEq(s, i, keyword) then None
    else
      var p0 := i + |keyword|;
      var p := if optionalDot && p0 < |s| && s[p0] == '.' then p0 + 1 else p0;
      var sep := Run(s, p, SepChars);
      var q := p + sep;
      var n := Run(s, q, Digits);
      if sep > 0 && 6 <= n <= 10 && Boundary(s, q + n) then Some(Span(q, q + n)) else None
  }

  /**
   * The name group after `Nome:` and `w` whitespace characters: the lazy
   * `[A-Za-zÀ-ÿ ]+?` can only stop where `(?=\n|$)` holds, i.e. at the end of
   * its maximal run; when that fails, `\s*` gives back one character and the
   * group is tried again one position earlier.
   */
  function NameGroup(s: string, a: nat, w: nat): (o: Option<Span>)
    requires a + w <= |s|
    ensures o.Some? ==> a <= o.value.mid < o.value.end <= |s|
    decreases w
  {
    var g := a + w;
    var r := Run(s, g, NameChars);
    if r >= 1 && (g + r == |s| || s[g + r] == '\n') then Some(Span(g, g + r))
    else if w == 0 then None
    else NameGroup(s, a, w - 1)
  }

  function MatchName(s: string, i: nat): (o: Option<Span>)
    requires i <= |s|
    ensures o.Some? ==> SpanFrom(s, i, o.value) && o.value.mid >= i + 5
  {
    if !FoldEq(s, i, "Nome:") then None
    else NameGroup(s, i + 5, Run(s, i + 5, Spaces))
  }

  /** What the regular expression engine finds when it tries `r` at position `i` of `s`. */
  function MatchAt(r: Rule, s: string, i: nat): (o: Option<Span>)
    requires i <= |s|
    ensures o.Some? ==> SpanFrom(s, i, o.value)
  {
    match r
    case Fixed(shape, _) => MatchFixed(s, i, shape)
    case Template(shape, _) => MatchFixed(s, i, shape)
    case Email => MatchEmail(s, i)
    case PhoneParen => MatchPhoneParen(s, i)
    case PhoneSpaced => MatchPhoneSpaced(s, i)
    case Labelled(keyword, dot) => MatchLabelled(s, i, keyword, dot)
    case NameLine => MatchName(s, i)
  }

  /** A replacement template applied to the matched text `x` (see `Rule.Fixed`). */
  function Fill(t: string, x: string, m: string): string
  {
    if t == [] then []
    else
      (if t[0] == 'K' then (if x == [] then [] else [x[0]]) else if t[0] == 'M' then m else [t[0]])
      + Fill(t[1..], if x == [] then [] else x[1..], m)
  }

  /** `re.sub(r"\D", "", x)`: the digits of `x`. */
  function DigitsOf(x: string): (r: string)
    ensures |r| <= |x|
  {
    if x == [] then [] else (if IsDigit(x[0]) then [x[0]] else []) + DigitsOf(x[1..])
  }

  /** The name-masking callback's treatment of one word. */
  predicate IsPreposition(w: string)
  {
    Lower(w) in {"de", "da", "do", "dos", "das", "e"}
  }

  function MaskWord(w: string, m: string): string
  {
    if IsPreposition(w) || |w| == 1 then w
    else if w == [] then []
    else [w[0]] + Rep(m, |w| - 1)
  }

  function MaskWords(ws: seq<string>, m: string): (r: seq<string>)
    ensures |r| == |ws|
    ensures forall k :: 0 <= k < |ws| ==> r[k] == MaskWord(ws[k], m)
  {
    if ws == [] then [] else [MaskWord(ws[0], m)] + MaskWords(ws[1..], m)
  }

  // ---------------------------------------------------------------------
  // Replacement strings.  A `str` given to `re.sub` as the replacement is
  // not inserted as it is: `re` first decodes its backslash escapes, and
  // raises `re.error` on one it rejects.  The patterns here have no groups,
  // so the only group reference it accepts is `\g<0>`, the whole match.
  // ---------------------------------------------------------------------

  /** One piece of a decoded replacement string: a character, or the whole match. */
  datatype TemplatePiece = Char(c: char) | WholeMatch

  /** The replacement string a template builds: each `M` becomes the mask string. */
  function MaskTemplate(t: string, m: string): string
  {
    if t == [] then [] else (if t[0] == 'M' then m else [t[0]]) + MaskTemplate(t[1..], m)
  }

  predicate IsOctal(c: char)
  {
    '0' <= c <= '7'
  }

  function OctalValue(c: char): (v: nat)
    requires IsOctal(c)
    ensures v < 8
  {
    (c as int) - ('0' as int)
  }

  /** The number of consecutive `'0'` characters from position `i` on. */
  function ZeroRun(t: string, i: nat): (n: nat)
    requires i <= |t|
    ensures i + n <= |t|
    ensures forall k :: i <= k < i + n ==> t[k] == '0'
    ensures i + n < |t| ==> t[i + n] != '0'
    decreases |t| - i
  {
    if i < |t| && t[i] == '0' then 1 + ZeroRun(t, i + 1) else 0
  }

  /** The character of a one-letter escape (`\a`, `\b`, `\f`, `\n`, `\r`, `\t`, `\v`). */
  function LetterEscape(c: char): char
  {
    if c == 'a' then 7 as char
    else if c == 'b' then 8 as char
    else if c == 'f' then 12 as char
    else if c == 'n' then 10 as char
    else if c == 'r' then 13 as char
    else if c == 't' then 9 as char
    else 11 as char
  }

  function Cons(p: TemplatePiece, rest: Option<seq<TemplatePiece>>): Option<seq<TemplatePiece>>
  {
    match rest
    case Some(ps) => Some([p] + ps)
    case None => None
  }

  /**
   * `re`'s parse of a replacement string for a pattern without groups;
   * `None` where it raises.  A backslash decodes the character after it:
   * `\\` and the letter escapes give one character, `\0` takes up to two
   * more octal digits, three octal digits up to `\377` give that character,
   * `\g<0>` (any number of zeros) is the whole match, and any other letter,
   * any other digit or a final backslash is an error.  A backslash before
   * any other character is kept together with it.
   */
  function ParseTemplate(t: string): (r: Option<seq<TemplatePiece>>)
    ensures r.Some? ==> |r.value| <= |t|
    decreases |t|
  {
    if t == [] then Some([])
    else if t[0] != '\\' then Cons(Char(t[0]), ParseTemplate(t[1..]))
    else if |t| == 1 then None
    else
      var c := t[1];
      if c == 'g' then
        if |t| > 2 && t[2] == '<' && ZeroRun(t, 3) > 0 && 3 + ZeroRun(t, 3) < |t| && t[3 + ZeroRun(t, 3)] == '>'
        then Cons(WholeMatch, ParseTemplate(t[4 + ZeroRun(t, 3)..]))
        else None
      else if c == '0' then
        if |t| > 3 && IsOctal(t[2]) && IsOctal(t[3]) then
          Cons(Char((8 * OctalValue(t[2]) + OctalValue(t[3])) as char), ParseTemplate(t[4..]))
        else if |t| > 2 && IsOctal(t[2]) then Cons(Char(OctalValue(t[2]) as char), ParseTemplate(t[3..]))
        else Cons(Char(0 as char), ParseTemplate(t[2..]))
      else if '1' <= c <= '9' then
        if IsOctal(c) && |t| > 3 && IsOctal(t[2]) && IsOctal(t[3])
           && 64 * OctalValue(c) + 8 * OctalValue(t[2]) + OctalValue(t[3]) <= 255
        then Cons(Char((64 * OctalValue(c) + 8 * OctalValue(t[2]) + OctalValue(t[3])) as char), ParseTemplate(t[4..]))
        else None
      else if c == '\\' then Cons(Char('\\'), ParseTemplate(t[2..]))
      else if c in "abfnrtv" then Cons(Char(LetterEscape(c)), ParseTemplate(t[2..]))
      else if 'a' <= c <= 'z' || 'A' <= c <= 'Z' then None
      else Cons(Char('\\'), Cons(Char(c), ParseTemplate(t[2..])))
  }

  /** The text a decoded replacement string inserts for the match `whole`. */
  function Render(ps: seq<TemplatePiece>, whole: string): string
  {
    if ps == [] then []
    else (match ps[0] case Char(c) => [c] case WholeMatch => whole) + Render(ps[1..], whole)
  }

  /**
   * What `re.sub` inserts for the replacement string `t`.  A string `re`
   * rejects is never inserted (the call raises first); the match stands
   * in for it here.
   */
  function Expanded(t: string, whole: string): string
  {
    match ParseTemplate(t)
    case Some(ps) => Render(ps, whole)
    case None => whole
  }

  /** `re.sub` raises `re.error` on the replacement string a `Template` rule builds from `m`. */
  predicate Rejects(r: Rule, m: string)
  {
    r.Template? && ParseTemplate(MaskTemplate(r.template, m)).None?
  }

  /** A replacement string without a backslash is inserted as it is. */
  lemma {:induction false} ParseLiteral(t: string, whole: string)
    requires '\\' !in t
    ensures ParseTemplate(t).Some? && Render(ParseTemplate(t).value, whole) == t
    ensures Expanded(t, whole) == t
    decreases |t|
  {
    if t != [] {
      assert t == [t[0]] + t[1..];
      ParseLiteral(t[1..], whole);
    }
  }

  lemma ExpandedPlain(c: char, u: string, whole: string)
    requires c != '\\' && ParseTemplate(u).Some?
    ensures ParseTemplate([c] + u).Some? && Expanded([c] + u, whole) == [c] + Expanded(u, whole)
  {
    assert ([c] + u)[1..] == u;
  }

  /** `\\` stands for one backslash. */
  lemma ExpandedBackslash(u: string, whole: string)
    requires ParseTemplate(u).Some?
    ensures ParseTemplate("\\\\" + u).Some? && Expanded("\\\\" + u, whole) == "\\" + Expanded(u, whole)
  {
    assert ("\\\\" + u)[2..] == u;
  }

  /** The text with every backslash written twice. */
  function Doubled(x: string): string
  {
    if x == [] then [] else (if x[0] == '\\' then "\\\\" else [x[0]]) + Doubled(x[1..])
  }

  /** `re` decodes a text whose backslashes are doubled back to the text itself. */
  lemma {:induction false} DoubledDecodes(x: string, whole: string)
    ensures ParseTemplate(Doubled(x)).Some? && Expanded(Doubled(x), whole) == x
    decreases |x|
  {
    if x != [] {
      DoubledDecodes(x[1..], whole);
      assert x == [x[0]] + x[1..];
      if x[0] == '\\' {
        ExpandedBackslash(Doubled(x[1..]), whole);
      } else {
        ExpandedPlain(x[0], Doubled(x[1..]), whole);
      }
    }
  }

  lemma {:induction false} DoubledConcat(x: string, y: string)
    ensures Doubled(x + y) == Doubled(x) + Doubled(y)
    decreases |x|
  {
    if x != [] {
      assert (x + y)[0] == x[0] && (x + y)[1..] == x[1..] + y;
      DoubledConcat(x[1..], y);
    } else {
      assert x + y == y;
    }
  }

  /** Each `M` of a template becomes the mask string, piece by piece. */
  lemma {:induction false} MaskTemplateConcat(a: string, b: string, m: string)
    ensures MaskTemplate(a + b, m) == MaskTemplate(a, m) + MaskTemplate(b, m)
    decreases |a|
  {
    if a != [] {
      var head := if a[0] == 'M' then m else [a[0]];
      assert (a + b)[0] == a[0] && (a + b)[1..] == a[1..] + b;
      MaskTemplateConcat(a[1..], b, m);
      assert head + (MaskTemplate(a[1..], m) + MaskTemplate(b, m)) == (head + MaskTemplate(a[1..], m)) + MaskTemplate(b, m);
    } else {
      assert a + b == b;
    }
  }

  /** A template and a mask without backslashes build a replacement string without one. */
  lemma {:induction false} MaskTemplatePlain(t: string, m: string)
    requires '\\' !in t && '\\' !in m
    ensures '\\' !in MaskTemplate(t, m)
    decreases |t|
  {
    if t != [] {
      assert t == [t[0]] + t[1..];
      MaskTemplatePlain(t[1..], m);
    }
  }

  /** Without `K`, a template builds the same text as a fixed-width template would. */
  lemma {:induction false} MaskTemplateIsFill(t: string, x: string, m: string)
    requires 'K' !in t && |x| == |t|
    ensures MaskTemplate(t, m) == Fill(t, x, m)
    decreases |t|
  {
    if t != [] {
      assert t == [t[0]] + t[1..];
      MaskTemplateIsFill(t[1..], x[1..], m);
    }
  }

  /** The replacement each rule's callback (or replacement string) produces for a match. */
  function Replace(r: Rule, s: string, i: nat, sp: Span, m: string): string
    requires SpanFrom(s, i, sp)
  {
    var whole := s[i..sp.end];
    var g1 := s[i..sp.mid];
    var g2 := s[sp.mid..sp.end];
    match r
    case Fixed(_, template) => Fill(template, whole, m)
    case Template(_, template) => Expanded(MaskTemplate(template, m), whole)
    case Email =>
      if |g1| <= 4 then g1 + g2 else g1[..4] + Rep(m, |g1| - 4) + g2
    case PhoneParen =>
      var digits := DigitsOf(whole);
      if |digits| == 11 then "(" + Rep(m, 2) + ") " + Rep(m, 5) + "-" + Tail(digits, 4)
      else "(" + Rep(m, 2) + ") " + Rep(m, 4) + "-" + Tail(digits, 4)
    case PhoneSpaced =>
      var digits := DigitsOf(whole);
      if |digits| == 11 then Rep(m, 2) + " " + Rep(m, 5) + "-" + Tail(digits, 4)
      else Rep(m, 2) + " " + Rep(m, 4) + "-" + Tail(digits, 4)
    case Labelled(_, _) =>
      g1 + Rep(m, if |g2| >= 3 then |g2| - 3 else 0) + Tail(g2, 3)
    case NameLine =>
      g1 + Join(MaskWords(Words(Strip(g2)), m), " ")
  }

  /** Every match `at` reports inside `s` ends after its start and inside the text. */
  predicate Advances(s: string, at: nat -> Option<Span>)
  {
    forall k :: 0 <= k < |s| && at(k).Some? ==> k < at(k).value.end <= |s|
  }

  /**
   * The left-to-right scan of `re.sub` from position `i` on, for a matcher
   * `at` and a replacement `rep`: a match is replaced and the scan resumes
   * where it ends; elsewhere one character is copied.
   */
  function Scan(s: string, at: nat -> Option<Span>, rep: (nat, Span) -> string, i: nat): string
    requires i <= |s| && Advances(s, at)
    decreases |s| - i
  {
    if i == |s| then []
    else
      match at(i)
      case Some(sp) => rep(i, sp) + Scan(s, at, rep, sp.end)
      case None => [s[i]] + Scan(s, at, rep, i + 1)
  }

  /** The matcher of `r` on `s`. */
  function Matcher(r: Rule, s: string): nat -> Option<Span>
  {
    (k: nat) => if k <= |s| then MatchAt(r, s, k) else None
  }

  /** The replacement of `r` on `s`. */
  function Replacer(r: Rule, s: string, m: string): (nat, Span) -> string
  {
    (k: nat, sp: Span) => if SpanFrom(s, k, sp) then Replace(r, s, k, sp, m) else []
  }

  lemma AtAdvances(r: Rule, s: string)
    ensures Advances(s, Matcher(r, s))
  {
    forall k | 0 <= k < |s| && Matcher(r, s)(k).Some?
      ensures k < Matcher(r, s)(k).value.end <= |s|
    {
      assert Matcher(r, s)(k) == MatchAt(r, s, k);
    }
  }

  /** `re.sub(r, repl, s)` restricted to the scan from position `i` on. */
  function SubFrom(r: Rule, s: string, m: string, i: nat): string
    requires i <= |s|
  {
    AtAdvances(r, s);
    Scan(s, Matcher(r, s), Replacer(r, s, m), i)
  }

  function Sub(r: Rule, s: string, m: string): string
  {
    SubFrom(r, s, m, 0)
  }

  // ---------------------------------------------------------------------
  // Properties of the scan, for every rule.
  // ---------------------------------------------------------------------

  /** One step of the scan where no match starts: the character is copied. */
  lemma SubFromNoMatchStep(r: Rule, s: string, m: string, i: nat)
    requires i < |s| && MatchAt(r, s, i).None?
    ensures SubFrom(r, s, m, i) == [s[i]] + SubFrom(r, s, m, i + 1)
  {
    assert Matcher(r, s)(i) == MatchAt(r, s, i);
  }

  /** One step of the scan where a match starts: it is replaced and the scan resumes after it. */
  lemma SubFromMatchStep(r: Rule, s: string, m: string, i: nat, sp: Span)
    requires i < |s| && MatchAt(r, s, i) == Some(sp)
    ensures SubFrom(r, s, m, i) == Replace(r, s, i, sp, m) + SubFrom(r, s, m, sp.end)
  {
    assert Matcher(r, s)(i) == MatchAt(r, s, i);
    assert Replacer(r, s, m)(i, sp) == Replace(r, s, i, sp, m);
  }

  lemma {:induction false} ScanSkip(s: string, at: nat -> Option<Span>, rep: (nat, Span) -> string, i: nat, j: nat)
    requires i <= j <= |s| && Advances(s, at)
    requires forall k :: i <= k < j ==> at(k).None?
    ensures Scan(s, at, rep, i) == s[i..j] + Scan(s, at, rep, j)
    decreases j - i
  {
    if i < j {
      assert at(i).None?;
      assert Scan(s, at, rep, i) == [s[i]] + Scan(s, at, rep, i + 1);
      ScanSkip(s, at, rep, i + 1, j);
      SliceCons(s, i, j);
      ConcatAssoc([s[i]], s[i + 1..j], Scan(s, at, rep, j));
    }
  }

  /** Positions where no match starts are copied to the output unchanged. */
  lemma SubSkip(r: Rule, s: string, m: string, i: nat, j: nat)
    requires i <= j <= |s|
    requires forall k :: i <= k < j ==> MatchAt(r, s, k).None?
    ensures SubFrom(r, s, m, i) == s[i..j] + SubFrom(r, s, m, j)
  {
    AtAdvances(r, s);
    var at := Matcher(r, s);
    forall k | i <= k < j
      ensures at(k).None?
    {
      assert at(k) == MatchAt(r, s, k);
    }
    ScanSkip(s, at, Replacer(r, s, m), i, j);
  }

  /** A text in which the pattern matches nowhere comes back unchanged. */
  lemma SubNoMatch(r: Rule, s: string, m: string)
    requires forall k :: 0 <= k < |s| ==> MatchAt(r, s, k).None?
    ensures Sub(r, s, m) == s
  {
    SubSkip(r, s, m, 0, |s|);
  }

  /**
   * The text before the leftmost match is untouched, the leftmost match is
   * replaced, and the scan resumes where the match ends.
   */
  lemma SubFirstMatch(r: Rule, s: string, m: string, j: nat, sp: Span)
    requires j < |s|
    requires forall k :: 0 <= k < j ==> MatchAt(r, s, k).None?
    requires MatchAt(r, s, j) == Some(sp)
    ensures Sub(r, s, m) == s[..j] + Replace(r, s, j, sp, m) + SubFrom(r, s, m, sp.end)
  {
    SubSkip(r, s, m, 0, j);
    SubFromMatchStep(r, s, m, j, sp);
    assert s[0..j] == s[..j];
    ConcatAssoc(s[..j], Replace(r, s, j, sp, m), SubFrom(r, s, m, sp.end));
  }

  /** Every match is replaced by text of its own length (with a one-character mask). */
  predicate KeepsWidth(r: Rule)
  {
    match r
    case Fixed(shape, template) => |shape| == |template|
    case Email => true
    case Labelled(_, _) => true
    case _ => false
  }

  lemma {:induction false} FillLength(t: string, x: string, m: string)
    requires |x| == |t| && |m| == 1
    ensures |Fill(t, x, m)| == |t|
    decreases |t|
  {
    if t != [] {
      FillLength(t[1..], x[1..], m);
    }
  }

  /** One position of a template: keep, mask, or emit the literal. */
  function FillChar(p: char, c: char, mc: char): char
  {
    if p == 'K' then c else if p == 'M' then mc else p
  }

  lemma {:induction false} FillAt(t: string, x: string, m: string, k: nat)
    requires |x| == |t| && |m| == 1 && k < |t|
    ensures |Fill(t, x, m)| == |t|
    ensures Fill(t, x, m)[k] == FillChar(t[k], x[k], m[0])
    decreases |t|
  {
    FillLength(t, x, m);
    if k > 0 {
      FillAt(t[1..], x[1..], m, k - 1);
      var head := if t[0] == 'K' then [x[0]] else if t[0] == 'M' then m else [t[0]];
      assert |head| == 1;
      assert Fill(t, x, m) == head + Fill(t[1..], x[1..], m);
    }
  }

  lemma ReplaceWidth(r: Rule, s: string, i: nat, sp: Span, m: string)
    requires i <= |s| && KeepsWidth(r) && |m| == 1 && MatchAt(r, s, i) == Some(sp)
    ensures |Replace(r, s, i, sp, m)| == sp.end - i
  {
    match r
    case Fixed(shape, template) =>
      FillLength(template, s[i..sp.end], m);
    case Email =>
    case Labelled(_, _) =>
  }

  lemma {:induction false} ScanLength(s: string, at: nat -> Option<Span>, rep: (nat, Span) -> string, i: nat)
    requires i <= |s| && Advances(s, at)
    requires forall k :: 0 <= k < |s| && at(k).Some? ==> |rep(k, at(k).value)| == at(k).value.end - k
    ensures |Scan(s, at, rep, i)| == |s| - i
    decreases |s| - i
  {
    if i < |s| {
      if at(i).Some? {
        ScanLength(s, at, rep, at(i).value.end);
      } else {
        ScanLength(s, at, rep, i + 1);
      }
    }
  }

  /** Rules that keep the width of every match keep the length of the text. */
  lemma SubLength(r: Rule, s: string, m: string, i: nat)
    requires i <= |s| && KeepsWidth(r) && |m| == 1
    ensures |SubFrom(r, s, m, i)| == |s| - i
  {
    AtAdvances(r, s);
    var at, rep := Matcher(r, s), Replacer(r, s, m);
    forall k | 0 <= k < |s| && at(k).Some?
      ensures |rep(k, at(k).value)| == at(k).value.end - k
    {
      assert at(k) == MatchAt(r, s, k);
      ReplaceWidth(r, s, k, at(k).value, m);
    }
    ScanLength(s, at, rep, i);
  }

  /** Every match of `r` in `s` would be replaced by the very text it matched. */
  predicate ReplacesByItself(r: Rule, s: string, m: string)
  {
    forall k :: 0 <= k < |s| && MatchAt(r, s, k).Some? ==>
      Replace(r, s, k, MatchAt(r, s, k).value, m) == s[k..MatchAt(r, s, k).value.end]
  }

  lemma {:induction false} ScanIdentity(s: string, at: nat -> Option<Span>, rep: (nat, Span) -> string, i: nat)
    requires i <= |s| && Advances(s, at)
    requires forall k :: 0 <= k < |s| && at(k).Some? ==> rep(k, at(k).value) == s[k..at(k).value.end]
    ensures Scan(s, at, rep, i) == s[i..]
    decreases |s| - i
  {
    if i < |s| {
      if at(i).Some? {
        ScanIdentity(s, at, rep, at(i).value.end);
        SuffixSplit(s, i, at(i).value.end);
      } else {
        ScanIdentity(s, at, rep, i + 1);
        SuffixCons(s, i);
      }
    }
  }

  lemma SubIdentity(r: Rule, s: string, m: string, i: nat)
    requires i <= |s| && ReplacesByItself(r, s, m)
    ensures SubFrom(r, s, m, i) == s[i..]
  {
    AtAdvances(r, s);
    var at, rep := Matcher(r, s), Replacer(r, s, m);
    forall k | 0 <= k < |s| && at(k).Some?
      ensures rep(k, at(k).value) == s[k..at(k).value.end]
    {
      assert at(k) == MatchAt(r, s, k);
    }
    ScanIdentity(s, at, rep, i);
  }

  /**
   * The literal characters of a template repeat the shape's literals, so a
   * fixed-width rule either keeps a matched character or masks it.
   */
  predicate Consistent(shape: string, template: string)
  {
    && |shape| == |template|
    && forall k :: 0 <= k < |template| ==>
         template[k] == 'K' || template[k] == 'M' || (template[k] == shape[k] && shape[k] != '#' && shape[k] != '?')
  }

  lemma FixedKeepsOrMasks(shape: string, template: string, s: string, i: nat, sp: Span, m: string, k: nat)
    requires i <= |s| && Consistent(shape, template) && |m| == 1
    requires MatchAt(Fixed(shape, template), s, i) == Some(sp) && k < |shape|
    ensures |Replace(Fixed(shape, template), s, i, sp, m)| == |shape| == sp.end - i
    ensures Replace(Fixed(shape, template), s, i, sp, m)[k] == if template[k] == 'M' then m[0] else s[i + k]
  {
    FillAt(template, s[i..sp.end], m, k);
    assert ShapeChar(s[i + k], shape[k]);
  }
}
