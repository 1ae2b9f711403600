/**
 * What the masking rules of project/simple_rag/utils/data_masking.py keep,
 * what they mask, and how their order matters.  Most statements require a
 * one-character mask (`|m| == 1`), the only kind the callers pass.
 */
module PiiProperties {
  import opened Common
  import opened Text
  import opened Seqs
  import opened PiiRegex
  import opened PiiMasking

  // ---------------------------------------------------------------------
  // Masking only overwrites characters of one class, in place.
  // ---------------------------------------------------------------------

  /**
   * `t` is `s` with some characters of class `k` overwritten by the mask
   * character: same length, and every other character is where it was.
   */
  predicate MasksOnly(s: string, t: string, m: string, k: CharClass)
  {
    && |m| == 1
    && |t| == |s|
    && forall j :: 0 <= j < |s| ==> t[j] == s[j] || (t[j] == m[0] && InClass(s[j], k))
  }

  lemma MasksOnlyTrans(s: string, t: string, u: string, m: string, k: CharClass)
    requires MasksOnly(s, t, m, k) && MasksOnly(t, u, m, k)
    ensures MasksOnly(s, u, m, k)
  {
  }

  lemma MasksOnlyConcat(a: string, a': string, b: string, b': string, m: string, k: CharClass)
    requires MasksOnly(a, a', m, k) && MasksOnly(b, b', m, k)
    ensures MasksOnly(a + b, a' + b', m, k)
  {
    forall j | 0 <= j < |a + b|
      ensures (a' + b')[j] == (a + b)[j] || ((a' + b')[j] == m[0] && InClass((a + b)[j], k))
    {
      if j >= |a| {
        assert (a' + b')[j] == b'[j - |a|] && (a + b)[j] == b[j - |a|];
      }
    }
  }

  /**
   * The rules whose replacement overwrites characters of class `k` only:
   * fixed-width templates that mask digit positions only (for a replacement
   * string, only when the mask is not the backslash `re` would decode), the labelled
   * record numbers (digits) and e-mail addresses (local-part characters).
   */
  predicate MasksClass(r: Rule, k: CharClass, m: string)
  {
    match r
    case Fixed(shape, template) =>
      && k == Digits
      && |shape| == |template|
      && forall j :: 0 <= j < |template| ==>
           || template[j] == 'K'
           || (template[j] == 'M' && shape[j] == '#')
           || (template[j] == shape[j] && shape[j] !in "#?KM")
    case Template(shape, template) =>
      && k == Digits
      && m != "\\"
      && |shape| == |template|
      && forall j :: 0 <= j < |template| ==>
           || (template[j] == 'M' && shape[j] == '#')
           || (template[j] == shape[j] && shape[j] !in "#?KM\\")
    case Labelled(_, _) => k == Digits
    case Email => k == LocalChars
    case _ => false
  }

  /** A fixed-width template keeps or masks each matched character, and masks digits only. */
  lemma FixedMasksOnly(shape: string, template: string, s: string, i: nat, sp: Span, m: string)
    requires i <= |s| && |m| == 1 && MasksClass(Fixed(shape, template), Digits, m)
    requires MatchFixed(s, i, shape) == Some(sp)
    ensures MasksOnly(s[i..sp.end], Fill(template, s[i..sp.end], m), m, Digits)
  {
    var x := s[i..sp.end];
    FillLength(template, x, m);
    forall j | 0 <= j < |x|
      ensures Fill(template, x, m)[j] == x[j] || (Fill(template, x, m)[j] == m[0] && IsDigit(x[j]))
    {
      FillAt(template, x, m, j);
      assert ShapeChar(s[i + j], shape[j]);
    }
  }

  lemma MasksOnlyItself(s: string, m: string, k: CharClass)
    requires |m| == 1
    ensures MasksOnly(s, s, m, k)
  {
  }

  /** Masking every character of a run of digits. */
  lemma MasksAllDigits(x: string, m: string)
    requires |m| == 1 && forall j :: 0 <= j < |x| ==> IsDigit(x[j])
    ensures MasksOnly(x, Rep(m, |x|), m, Digits)
  {
  }

  /** A record number keeps its label and its last three digits. */
  lemma LabelledMasksOnly(s: string, i: nat, sp: Span, m: string, out: string)
    requires SpanFrom(s, i, sp) && |m| == 1 && sp.end - sp.mid >= 6
    requires forall j :: sp.mid <= j < sp.end ==> IsDigit(s[j])
    requires out == s[i..sp.mid] + Rep(m, sp.end - sp.mid - 3) + Tail(s[sp.mid..sp.end], 3)
    ensures MasksOnly(s[i..sp.end], out, m, Digits)
  {
    var a := s[i..sp.mid];
    var d := s[sp.mid..sp.end - 3];
    var c := s[sp.end - 3..sp.end];
    var b := Rep(m, |d|);
    assert Tail(s[sp.mid..sp.end], 3) == c;
    MasksAllDigits(d, m);
    MasksOnlyItself(c, m, Digits);
    MasksOnlyConcat(d, b, c, c, m, Digits);
    SliceSplit(s, sp.mid, sp.end - 3, sp.end);
    MasksOnlyItself(a, m, Digits);
    MasksOnlyConcat(a, a, d + c, b + c, m, Digits);
    SliceSplit(s, i, sp.mid, sp.end);
    ConcatAssoc(a, b, c);
  }

  /** An e-mail address keeps its domain and at least four local-part characters. */
  lemma EmailMasksOnly(s: string, i: nat, sp: Span, m: string, out: string)
    requires SpanFrom(s, i, sp) && |m| == 1
    requires forall j :: i <= j < sp.mid ==> InClass(s[j], LocalChars)
    requires out == if sp.mid - i <= 4 then s[i..sp.mid] + s[sp.mid..sp.end]
                    else s[i..sp.mid][..4] + Rep(m, sp.mid - i - 4) + s[sp.mid..sp.end]
    ensures MasksOnly(s[i..sp.end], out, m, LocalChars)
  {
    if sp.mid - i <= 4 {
      assert out == s[i..sp.end];
    } else {
      forall j | 0 <= j < sp.end - i
        ensures out[j] == s[i + j] || (out[j] == m[0] && InClass(s[i + j], LocalChars))
      {
        if j >= sp.mid - i {
          assert out[j] == s[sp.mid..sp.end][j - (sp.mid - i)];
        } else if j < 4 {
          assert out[j] == s[i..sp.mid][j];
        }
      }
    }
  }

  lemma ReplaceMasksOnly(r: Rule, s: string, i: nat, sp: Span, m: string, k: CharClass)
    requires i <= |s| && |m| == 1 && MasksClass(r, k, m) && MatchAt(r, s, i) == Some(sp)
    ensures MasksOnly(s[i..sp.end], Replace(r, s, i, sp, m), m, k)
  {
    match r
    case Fixed(shape, template) =>
      FixedReplaceMasksOnly(shape, template, s, i, sp, m);
    case Template(shape, template) =>
      TemplateReplaceMasksOnly(shape, template, s, i, sp, m);
    case Labelled(keyword, dot) =>
      LabelledReplaceMasksOnly(keyword, dot, s, i, sp, m);
    case Email =>
      EmailReplaceMasksOnly(s, i, sp, m);
  }

  lemma FixedReplaceMasksOnly(shape: string, template: string, s: string, i: nat, sp: Span, m: string)
    requires i <= |s| && |m| == 1 && MasksClass(Fixed(shape, template), Digits, m)
    requires MatchAt(Fixed(shape, template), s, i) == Some(sp)
    ensures MasksOnly(s[i..sp.end], Replace(Fixed(shape, template), s, i, sp, m), m, Digits)
  {
    FixedMasksOnly(shape, template, s, i, sp, m);
  }

  /** A replacement string built from a one-character mask other than a backslash is inserted as it is. */
  lemma TemplateReplaceMasksOnly(shape: string, template: string, s: string, i: nat, sp: Span, m: string)
    requires i <= |s| && |m| == 1 && MasksClass(Template(shape, template), Digits, m)
    requires MatchAt(Template(shape, template), s, i) == Some(sp)
    ensures MasksOnly(s[i..sp.end], Replace(Template(shape, template), s, i, sp, m), m, Digits)
  {
    var x := s[i..sp.end];
    assert MatchFixed(s, i, shape) == Some(sp);
    assert 'K' !in template && '\\' !in template by {
      forall j | 0 <= j < |template| ensures template[j] != 'K' && template[j] != '\\' { }
    }
    assert '\\' !in m by { assert m == [m[0]]; }
    MaskTemplatePlain(template, m);
    ParseLiteral(MaskTemplate(template, m), x);
    MaskTemplateIsFill(template, x, m);
    assert MasksClass(Fixed(shape, template), Digits, m);
    FixedMasksOnly(shape, template, s, i, sp, m);
  }

  lemma LabelledReplaceMasksOnly(keyword: string, dot: bool, s: string, i: nat, sp: Span, m: string)
    requires i <= |s| && |m| == 1 && MatchAt(Labelled(keyword, dot), s, i) == Some(sp)
    ensures MasksOnly(s[i..sp.end], Replace(Labelled(keyword, dot), s, i, sp, m), m, Digits)
  {
    assert MatchLabelled(s, i, keyword, dot) == Some(sp);
    LabelledMasksOnly(s, i, sp, m, Replace(Labelled(keyword, dot), s, i, sp, m));
  }

  lemma EmailReplaceMasksOnly(s: string, i: nat, sp: Span, m: string)
    requires i <= |s| && |m| == 1 && MatchAt(Email, s, i) == Some(sp)
    ensures MasksOnly(s[i..sp.end], Replace(Email, s, i, sp, m), m, LocalChars)
  {
    assert MatchEmail(s, i) == Some(sp);
    EmailMasksOnly(s, i, sp, m, Replace(Email, s, i, sp, m));
  }

  lemma {:induction false} SubFromMasksOnly(r: Rule, s: string, m: string, k: CharClass, i: nat)
    requires i <= |s| && |m| == 1 && MasksClass(r, k, m)
    ensures MasksOnly(s[i..], SubFrom(r, s, m, i), m, k)
    decreases |s| - i
  {
    if i < |s| {
      var o := MatchAt(r, s, i);
      if o.Some? {
        var sp := o.value;
        var out := Replace(r, s, i, sp, m);
        var rest := SubFrom(r, s, m, sp.end);
        SubFromMatchStep(r, s, m, i, sp);
        ReplaceMasksOnly(r, s, i, sp, m, k);
        SubFromMasksOnly(r, s, m, k, sp.end);
        MasksOnlyConcat(s[i..sp.end], out, s[sp.end..], rest, m, k);
        SuffixSplit(s, i, sp.end);
      } else {
        var rest := SubFrom(r, s, m, i + 1);
        SubFromNoMatchStep(r, s, m, i);
        SubFromMasksOnly(r, s, m, k, i + 1);
        MasksOnlyConcat([s[i]], [s[i]], s[i + 1..], rest, m, k);
        SuffixCons(s, i);
      }
    }
  }

  /** One pass of a rule that masks class `k` keeps the length and overwrites only class `k`. */
  lemma SubMasksOnly(r: Rule, s: string, m: string, k: CharClass)
    requires |m| == 1 && MasksClass(r, k, m)
    ensures MasksOnly(s, Sub(r, s, m), m, k)
  {
    SubFromMasksOnly(r, s, m, k, 0);
    assert s[0..] == s;
  }

  /** Two passes of rules that mask the same class. */
  lemma Sub2MasksOnly(r1: Rule, r2: Rule, s: string, m: string, k: CharClass)
    requires |m| == 1 && MasksClass(r1, k, m) && MasksClass(r2, k, m)
    ensures MasksOnly(s, Sub(r2, Sub(r1, s, m), m), m, k)
  {
    SubMasksOnly(r1, s, m, k);
    SubMasksOnly(r2, Sub(r1, s, m), m, k);
    MasksOnlyTrans(s, Sub(r1, s, m), Sub(r2, Sub(r1, s, m), m), m, k);
  }

  /** `mask_cpf` keeps the length and overwrites digits only. */
  lemma MaskCpfMasksDigits(text: string, m: string)
    requires |m| == 1
    ensures MasksOnly(text, MaskCpf(text, m), m, Digits)
  {
    Sub2MasksOnly(CPF_FORMATTED, CPF_PLAIN, text, m, Digits);
  }

  /** `mask_rg` keeps the length and overwrites digits only (the check character is kept). */
  lemma MaskRgMasksDigits(text: string, m: string)
    requires |m| == 1
    ensures MasksOnly(text, MaskRg(text, m), m, Digits)
  {
    Sub2MasksOnly(RG_FORMATTED, RG_PLAIN, text, m, Digits);
  }

  /** `mask_cep` keeps the length and overwrites digits only. */
  lemma MaskCepMasksDigits(text: string, m: string)
    requires |m| == 1
    ensures MasksOnly(text, MaskCep(text, m), m, Digits)
  {
    Sub2MasksOnly(CEP_FORMATTED, CEP_PLAIN, text, m, Digits);
  }

  /** A date rule masks its digit positions only, for any mask other than a backslash. */
  lemma DateMasksDigits(sep: char, m: string)
    requires sep in "/-." && m != "\\"
    ensures MasksClass(DateRule(sep), Digits, m)
  {
    var shape := "##" + [sep] + "##" + [sep] + "####";
    var template := "MM" + [sep] + "MM" + [sep] + "MMMM";
    forall j | 0 <= j < 10
      ensures || (template[j] == 'M' && shape[j] == '#')
              || (template[j] == shape[j] && shape[j] !in "#?KM\\")
    {
    }
  }

  /**
   * `mask_birth_date` keeps the length and the separators; it overwrites
   * digits only.  A backslash mask is the exception: `re` decodes each
   * `\\` of the replacement string to one backslash (see `DateMatch`).
   */
  lemma MaskBirthDateMasksDigits(text: string, m: string)
    requires |m| == 1 && m != "\\"
    ensures !BirthDateRaises(m)
    ensures MasksOnly(text, MaskBirthDate(text, m), m, Digits)
  {
    OneCharMaskAccepted(m);
    DateMasksDigits('/', m);
    DateMasksDigits('-', m);
    DateMasksDigits('.', m);
    Sub2MasksOnly(DATE_SLASH, DATE_DASH, text, m, Digits);
    var t2 := Sub(DATE_DASH, Sub(DATE_SLASH, text, m), m);
    SubMasksOnly(DATE_DOT, t2, m, Digits);
    MasksOnlyTrans(text, t2, MaskBirthDate(text, m), m, Digits);
  }

  /** `mask_email` keeps the length; it overwrites local-part characters only. */
  lemma MaskEmailMasksLocalChars(text: string, m: string)
    requires |m| == 1
    ensures MasksOnly(text, MaskEmail(text, m), m, LocalChars)
  {
    SubMasksOnly(Email, text, m, LocalChars);
  }

  lemma {:induction false} ApplyRulesMasksOnly(rules: seq<Rule>, text: string, m: string, k: CharClass)
    requires |m| == 1 && forall j :: 0 <= j < |rules| ==> MasksClass(rules[j], k, m)
    ensures MasksOnly(text, ApplyRules(rules, text, m), m, k)
    decreases |rules|
  {
    if rules == [] {
    } else {
      var t := Sub(rules[0], text, m);
      SubMasksOnly(rules[0], text, m, k);
      ApplyRulesMasksOnly(rules[1..], t, m, k);
      MasksOnlyTrans(text, t, ApplyRules(rules, text, m), m, k);
    }
  }

  /** `mask_prontuario` keeps the length and the labels; it overwrites digits only. */
  lemma MaskProntuarioMasksDigits(text: string, m: string)
    requires |m| == 1
    ensures MasksOnly(text, ProntuarioMasked(text, m), m, Digits)
  {
    ApplyRulesMasksOnly(PRONTUARIO_PATTERNS, text, m, Digits);
  }

  // ---------------------------------------------------------------------
  // What each fixed-width pattern keeps of a match.
  // ---------------------------------------------------------------------

  /** Fill of a template, given what it yields at every position. */
  lemma FillIs(t: string, x: string, m: string, expected: string)
    requires |x| == |t| && |m| == 1 && |expected| == |t|
    requires forall k :: 0 <= k < |t| ==> expected[k] == FillChar(t[k], x[k], m[0])
    ensures Fill(t, x, m) == expected
  {
    FillLength(t, x, m);
    forall k | 0 <= k < |t|
      ensures Fill(t, x, m)[k] == expected[k]
    {
      FillAt(t, x, m, k);
    }
  }

  lemma CpfFormattedFill(x: string, m: string)
    requires |x| == 14 && |m| == 1
    ensures Fill("KKK.MMM.MMM-KK", x, m) == x[..3] + "." + Rep(m, 3) + "." + Rep(m, 3) + "-" + x[12..]
  {
    var t := "KKK.MMM.MMM-KK";
    var e := x[..3] + "." + Rep(m, 3) + "." + Rep(m, 3) + "-" + x[12..];
    forall k | 0 <= k < 14
      ensures e[k] == FillChar(t[k], x[k], m[0])
    {
      if k < 3 { assert t[k] == 'K'; }
      else if k == 3 || k == 7 { assert t[k] == '.'; }
      else if k < 11 { assert t[k] == 'M'; }
      else if k == 11 { assert t[k] == '-'; }
      else { assert t[k] == 'K'; }
    }
    FillIs(t, x, m, e);
  }

  /** `DDD.DDD.DDD-DD` keeps its first three and last two digits: `DDD.***.***-DD`. */
  lemma CpfFormattedMatch(s: string, i: nat, sp: Span, m: string)
    requires i <= |s| && |m| == 1 && MatchAt(CPF_FORMATTED, s, i) == Some(sp)
    ensures sp.end == i + 14
    ensures Replace(CPF_FORMATTED, s, i, sp, m) == s[i..i + 3] + "." + Rep(m, 3) + "." + Rep(m, 3) + "-" + s[i + 12..i + 14]
  {
    assert MatchFixed(s, i, "###.###.###-##") == Some(sp);
    var x := s[i..i + 14];
    CpfFormattedFill(x, m);
    assert x[..3] == s[i..i + 3] && x[12..] == s[i + 12..i + 14];
  }

  lemma CpfPlainFill(x: string, m: string)
    requires |x| == 11 && |m| == 1
    ensures Fill("KKKMMMMMKKK", x, m) == x[..3] + Rep(m, 5) + x[8..]
  {
    var t := "KKKMMMMMKKK";
    var e := x[..3] + Rep(m, 5) + x[8..];
    forall k | 0 <= k < 11
      ensures e[k] == FillChar(t[k], x[k], m[0])
    {
      if k < 3 { assert t[k] == 'K'; }
      else if k < 8 { assert t[k] == 'M'; }
      else { assert t[k] == 'K'; }
    }
    FillIs(t, x, m, e);
  }

  /** An 11-digit CPF keeps its first three and last three digits. */
  lemma CpfPlainMatch(s: string, i: nat, sp: Span, m: string)
    requires i <= |s| && |m| == 1 && MatchAt(CPF_PLAIN, s, i) == Some(sp)
    ensures sp.end == i + 11
    ensures Replace(CPF_PLAIN, s, i, sp, m) == s[i..i + 3] + Rep(m, 5) + s[i + 8..i + 11]
  {
    assert MatchFixed(s, i, "###########") == Some(sp);
    var x := s[i..i + 11];
    CpfPlainFill(x, m);
    assert x[..3] == s[i..i + 3];
    assert x[8..] == s[i + 8..i + 11];
  }


  lemma RgFormattedFill(x: string, m: string)
    requires |x| == 12 && |m| == 1
    ensures Fill("KK.MMM.MMM-K", x, m) == x[..2] + "." + Rep(m, 3) + "." + Rep(m, 3) + "-" + x[11..]
  {
    var t := "KK.MMM.MMM-K";
    var e := x[..2] + "." + Rep(m, 3) + "." + Rep(m, 3) + "-" + x[11..];
    forall k | 0 <= k < 12
      ensures e[k] == FillChar(t[k], x[k], m[0])
    {
      if k < 2 { assert t[k] == 'K'; }
      else if k == 2 || k == 6 { assert t[k] == '.'; }
      else if k < 10 { assert t[k] == 'M'; }
      else if k == 10 { assert t[k] == '-'; }
      else { assert t[k] == 'K'; }
    }
    FillIs(t, x, m, e);
  }

  /** `DD.DDD.DDD-c` keeps its first two digits and its check character `c`. */
  lemma RgFormattedMatch(s: string, i: nat, sp: Span, m: string)
    requires i <= |s| && |m| == 1 && MatchAt(RG_FORMATTED, s, i) == Some(sp)
    ensures sp.end == i + 12
    ensures Replace(RG_FORMATTED, s, i, sp, m) == s[i..i + 2] + "." + Rep(m, 3) + "." + Rep(m, 3) + "-" + s[i + 11..i + 12]
  {
    assert MatchFixed(s, i, "##.###.###-?") == Some(sp);
    var x := s[i..i + 12];
    RgFormattedFill(x, m);
    assert x[..2] == s[i..i + 2] && x[11..] == s[i + 11..i + 12];
  }

  lemma RgPlainFill(x: string, m: string)
    requires |x| == 9 && |m| == 1
    ensures Fill("KKMMMMMKK", x, m) == x[..2] + Rep(m, 5) + x[7..]
  {
    var t := "KKMMMMMKK";
    var e := x[..2] + Rep(m, 5) + x[7..];
    forall k | 0 <= k < 9
      ensures e[k] == FillChar(t[k], x[k], m[0])
    {
      if k < 2 { assert t[k] == 'K'; }
      else if k < 7 { assert t[k] == 'M'; }
      else { assert t[k] == 'K'; }
    }
    FillIs(t, x, m, e);
  }

  /** A 9-digit RG keeps its first two and last two digits. */
  lemma RgPlainMatch(s: string, i: nat, sp: Span, m: string)
    requires i <= |s| && |m| == 1 && MatchAt(RG_PLAIN, s, i) == Some(sp)
    ensures sp.end == i + 9
    ensures Replace(RG_PLAIN, s, i, sp, m) == s[i..i + 2] + Rep(m, 5) + s[i + 7..i + 9]
  {
    assert MatchFixed(s, i, "#########") == Some(sp);
    var x := s[i..i + 9];
    RgPlainFill(x, m);
    assert x[..2] == s[i..i + 2];
    assert x[7..] == s[i + 7..i + 9];
  }


  lemma CepFormattedFill(x: string, m: string)
    requires |x| == 9 && |m| == 1
    ensures Fill("KKKKK-MMM", x, m) == x[..5] + "-" + Rep(m, 3)
  {
    var t := "KKKKK-MMM";
    var e := x[..5] + "-" + Rep(m, 3);
    forall k | 0 <= k < 9
      ensures e[k] == FillChar(t[k], x[k], m[0])
    {
      if k < 5 { assert t[k] == 'K'; }
      else if k < 6 { assert t[k] == '-'; }
      else { assert t[k] == 'M'; }
    }
    FillIs(t, x, m, e);
  }

  /** `DDDDD-DDD` keeps its first five digits and masks the last three. */
  lemma CepFormattedMatch(s: string, i: nat, sp: Span, m: string)
    requires i <= |s| && |m| == 1 && MatchAt(CEP_FORMATTED, s, i) == Some(sp)
    ensures sp.end == i + 9
    ensures Replace(CEP_FORMATTED, s, i, sp, m) == s[i..i + 5] + "-" + Rep(m, 3)
  {
    assert MatchFixed(s, i, "#####-###") == Some(sp);
    var x := s[i..i + 9];
    CepFormattedFill(x, m);
    assert x[..5] == s[i..i + 5];
  }


  lemma CepPlainFill(x: string, m: string)
    requires |x| == 8 && |m| == 1
    ensures Fill("KKKKKMMM", x, m) == x[..5] + Rep(m, 3)
  {
    var t := "KKKKKMMM";
    var e := x[..5] + Rep(m, 3);
    forall k | 0 <= k < 8
      ensures e[k] == FillChar(t[k], x[k], m[0])
    {
      if k < 5 { assert t[k] == 'K'; }
      else { assert t[k] == 'M'; }
    }
    FillIs(t, x, m, e);
  }

  /** An 8-digit CEP keeps its first five digits and masks the last three. */
  lemma CepPlainMatch(s: string, i: nat, sp: Span, m: string)
    requires i <= |s| && |m| == 1 && MatchAt(CEP_PLAIN, s, i) == Some(sp)
    ensures sp.end == i + 8
    ensures Replace(CEP_PLAIN, s, i, sp, m) == s[i..i + 5] + Rep(m, 3)
  {
    assert MatchFixed(s, i, "########") == Some(sp);
    var x := s[i..i + 8];
    CepPlainFill(x, m);
    assert x[..5] == s[i..i + 5];
  }


  lemma Phone11Fill(x: string, m: string)
    requires |x| == 11 && |m| == 1
    ensures Fill("MMMMMMMKKKK", x, m) == Rep(m, 7) + x[7..]
  {
    var t := "MMMMMMMKKKK";
    var e := Rep(m, 7) + x[7..];
    forall k | 0 <= k < 11
      ensures e[k] == FillChar(t[k], x[k], m[0])
    {
      if k < 7 { assert t[k] == 'M'; }
      else { assert t[k] == 'K'; }
    }
    FillIs(t, x, m, e);
  }

  /** A bare 11-digit phone number keeps only its last four digits. */
  lemma Phone11Match(s: string, i: nat, sp: Span, m: string)
    requires i <= |s| && |m| == 1 && MatchAt(PHONE_PLAIN_11, s, i) == Some(sp)
    ensures sp.end == i + 11
    ensures Replace(PHONE_PLAIN_11, s, i, sp, m) == Rep(m, 7) + s[i + 7..i + 11]
  {
    assert MatchFixed(s, i, "###########") == Some(sp);
    var x := s[i..i + 11];
    Phone11Fill(x, m);
    assert x[7..] == s[i + 7..i + 11];
  }


  lemma Phone10Fill(x: string, m: string)
    requires |x| == 10 && |m| == 1
    ensures Fill("MMMMMMKKKK", x, m) == Rep(m, 6) + x[6..]
  {
    var t := "MMMMMMKKKK";
    var e := Rep(m, 6) + x[6..];
    forall k | 0 <= k < 10
      ensures e[k] == FillChar(t[k], x[k], m[0])
    {
      if k < 6 { assert t[k] == 'M'; }
      else { assert t[k] == 'K'; }
    }
    FillIs(t, x, m, e);
  }

  /** A bare 10-digit phone number keeps only its last four digits. */
  lemma Phone10Match(s: string, i: nat, sp: Span, m: string)
    requires i <= |s| && |m| == 1 && MatchAt(PHONE_PLAIN_10, s, i) == Some(sp)
    ensures sp.end == i + 10
    ensures Replace(PHONE_PLAIN_10, s, i, sp, m) == Rep(m, 6) + s[i + 6..i + 10]
  {
    assert MatchFixed(s, i, "##########") == Some(sp);
    var x := s[i..i + 10];
    Phone10Fill(x, m);
    assert x[6..] == s[i + 6..i + 10];
  }


  /** The replacement string of a date rule: two, two and four masks around the separators. */
  /** The runs of `M` in the date templates become runs of the mask. */
  lemma MaskTemplateRuns(m: string)
    ensures MaskTemplate("MM", m) == Rep(m, 2) && MaskTemplate("MMMM", m) == Rep(m, 4)
  {
    var mm := "MM";
    var mmmm := "MMMM";
    assert mm[1..] == "M" && "M"[1..] == [] && mmmm[1..] == "MMM" && "MMM"[1..] == mm;
    assert MaskTemplate("M", m) == m + [] == Rep(m, 1);
    assert MaskTemplate(mm, m) == m + Rep(m, 1) == Rep(m, 2);
    assert MaskTemplate("MMM", m) == m + Rep(m, 2) == Rep(m, 3);
    assert MaskTemplate(mmmm, m) == m + Rep(m, 3) == Rep(m, 4);
  }

  lemma DateTemplateShape(sep: char)
    ensures DateRule(sep).template == "MM" + ([sep] + ("MM" + ([sep] + "MMMM")))
  {
    ConcatAssoc5("MM", [sep], "MM", [sep], "MMMM");
  }

  lemma MaskTemplateSeparator(sep: char, m: string)
    requires sep != 'M'
    ensures MaskTemplate([sep], m) == [sep]
  {
    assert [sep][1..] == [] && [sep][0] == sep;
  }

  lemma DateTemplateText(sep: char, m: string)
    requires sep in "/-."
    ensures MaskTemplate(DateRule(sep).template, m) == Rep(m, 2) + [sep] + Rep(m, 2) + [sep] + Rep(m, 4)
  {
    var mm, mmmm, s := "MM", "MMMM", [sep];
    DateTemplateShape(sep);
    MaskTemplateRuns(m);
    MaskTemplateSeparator(sep, m);
    MaskTemplateConcat(mm, s + (mm + (s + mmmm)), m);
    MaskTemplateConcat(s, mm + (s + mmmm), m);
    MaskTemplateConcat(mm, s + mmmm, m);
    MaskTemplateConcat(s, mmmm, m);
    ConcatAssoc5(Rep(m, 2), s, Rep(m, 2), s, Rep(m, 4));
  }

  /** With a backslash mask, `re` decodes `\\\\<sep>\\\\<sep>\\\\\\\\` to `\\<sep>\\<sep>\\\\`. */
  lemma BackslashDateText(sep: char, whole: string)
    requires sep in "/-."
    ensures var t := MaskTemplate(DateRule(sep).template, "\\");
            ParseTemplate(t).Some? && Expanded(t, whole) == "\\" + [sep] + "\\" + [sep] + "\\\\"
  {
    DateTemplateText(sep, "\\");
    var b, s := "\\", [sep];
    assert Doubled(b) == "\\\\" by { assert b[1..] == []; }
    assert Doubled(s) == s by { assert s[1..] == []; }
    DoubledConcat(b, b);
    DoubledConcat(b, s);
    DoubledConcat(b + s, b);
    DoubledConcat(b + s + b, s);
    DoubledConcat(b + s + b + s, b + b);
    assert Rep("\\", 2) == "\\\\" && Rep("\\", 4) == "\\\\" + "\\\\";
    DoubledDecodes(b + s + b + s + (b + b), whole);
  }

  /** A one-character mask always builds replacement strings `re` accepts. */
  lemma OneCharMaskAccepted(m: string)
    requires |m| == 1
    ensures !BirthDateRaises(m)
  {
    forall sep | sep in "/-."
      ensures ParseTemplate(MaskTemplate(DateRule(sep).template, m)).Some?
    {
      if m == "\\" {
        BackslashDateText(sep, []);
      } else {
        assert '\\' !in m by { assert m == [m[0]]; }
        MaskTemplatePlain(DateRule(sep).template, m);
        ParseLiteral(MaskTemplate(DateRule(sep).template, m), []);
      }
    }
  }

  /**
   * A mask that starts with a backslash and a letter `re` knows no escape
   * for (`"\\d"`, say) builds a replacement string `re` rejects, so
   * `mask_birth_date` raises whatever the text.
   */
  lemma BadEscapeMaskRaises(m: string)
    requires |m| >= 2 && m[0] == '\\' && ('a' <= m[1] <= 'z' || 'A' <= m[1] <= 'Z') && m[1] !in "abfnrtvg"
    ensures BirthDateRaises(m)
  {
    var t := MaskTemplate(DATE_SLASH.template, m);
    assert DATE_SLASH.template[0] == 'M';
    assert t == m + MaskTemplate(DATE_SLASH.template[1..], m);
    assert t[0] == '\\' && t[1] == m[1];
  }

  lemma DateMatchEnd(sep: char, s: string, i: nat, sp: Span)
    requires i <= |s| && MatchAt(DateRule(sep), s, i) == Some(sp)
    ensures sp.end == i + 10
  {
    assert MatchFixed(s, i, "##" + [sep] + "##" + [sep] + "####") == Some(sp);
  }

  /**
   * A date keeps only its separators: each digit becomes the mask, except
   * that a backslash mask is decoded by `re`, so `\\` stands for each pair.
   */
  lemma DateMatch(sep: char, s: string, i: nat, sp: Span, m: string)
    requires sep in "/-." && i <= |s| && |m| == 1 && MatchAt(DateRule(sep), s, i) == Some(sp)
    ensures sp.end == i + 10
    ensures m != "\\" ==> Replace(DateRule(sep), s, i, sp, m) == Rep(m, 2) + [sep] + Rep(m, 2) + [sep] + Rep(m, 4)
    ensures m == "\\" ==> Replace(DateRule(sep), s, i, sp, m) == "\\" + [sep] + "\\" + [sep] + "\\\\"
  {
    DateMatchEnd(sep, s, i, sp);
    var x := s[i..sp.end];
    assert Replace(DateRule(sep), s, i, sp, m) == Expanded(MaskTemplate(DateRule(sep).template, m), x);
    if m == "\\" {
      BackslashDateText(sep, x);
    } else {
      DatePlainExpanded(sep, x, m);
    }
  }

  /** The date template's text holds no backslash unless the mask is one. */
  lemma DateTextPlain(sep: char, m: string)
    requires sep in "/-." && |m| == 1 && m != "\\"
    ensures '\\' !in Rep(m, 2) + [sep] + Rep(m, 2) + [sep] + Rep(m, 4)
  {
    assert m == [m[0]];
    assert '\\' !in Rep(m, 2) && '\\' !in Rep(m, 4);
  }

  /** For any mask but a backslash, `re` copies the date template's text as it is. */
  lemma DatePlainExpanded(sep: char, x: string, m: string)
    requires sep in "/-." && |m| == 1 && m != "\\"
    ensures Expanded(MaskTemplate(DateRule(sep).template, m), x) == Rep(m, 2) + [sep] + Rep(m, 2) + [sep] + Rep(m, 4)
  {
    DateTemplateText(sep, m);
    DateTextPlain(sep, m);
    ParseLiteral(Rep(m, 2) + [sep] + Rep(m, 2) + [sep] + Rep(m, 4), x);
  }

  // ---------------------------------------------------------------------
  // E-mail addresses.
  // ---------------------------------------------------------------------

  /** A local part of at most four characters is left as it is. */
  lemma EmailShortLocalKept(s: string, i: nat, sp: Span, m: string)
    requires i <= |s| && MatchAt(Email, s, i) == Some(sp) && sp.mid - i <= 4
    ensures Replace(Email, s, i, sp, m) == s[i..sp.end]
  {
    assert s[i..sp.end] == s[i..sp.mid] + s[sp.mid..sp.end];
  }

  /**
   * A longer local part keeps its first four characters, the rest becomes
   * mask characters, and the domain from the `@` on is kept verbatim.
   */
  lemma EmailLongLocalMasked(s: string, i: nat, sp: Span, m: string)
    requires i <= |s| && |m| == 1 && MatchAt(Email, s, i) == Some(sp) && sp.mid - i > 4
    ensures var out := Replace(Email, s, i, sp, m);
      && |out| == sp.end - i
      && out[..4] == s[i..i + 4]
      && (forall k :: 4 <= k < sp.mid - i ==> out[k] == m[0])
      && out[sp.mid - i..] == s[sp.mid..sp.end]
      && out[sp.mid - i] == '@'
  {
    assert MatchEmail(s, i) == Some(sp);
    var g1 := s[i..sp.mid];
    var g2 := s[sp.mid..sp.end];
    assert Replace(Email, s, i, sp, m) == g1[..4] + Rep(m, |g1| - 4) + g2;
    MaskedLocalPart(g1, g2, m);
    SliceOfSlice(s, i, sp.mid, 4);
    assert g2[0] == s[sp.mid];
  }

  /** The pieces of a masked address: the kept prefix, the mask characters and the domain. */
  lemma MaskedLocalPart(g1: string, g2: string, m: string)
    requires |g1| > 4 && |m| == 1 && g2 != []
    ensures var out := g1[..4] + Rep(m, |g1| - 4) + g2;
      && |out| == |g1| + |g2|
      && out[..4] == g1[..4]
      && (forall k :: 4 <= k < |g1| ==> out[k] == m[0])
      && out[|g1|..] == g2
      && out[|g1|] == g2[0]
  {
    var r := Rep(m, |g1| - 4);
    var out := g1[..4] + r + g2;
    ConcatAssoc(g1[..4], r, g2);
    assert out[..4] == g1[..4];
    assert out[|g1|..] == g2;
  }

  /** A text whose every e-mail address has a local part of at most four characters is unchanged. */
  lemma MaskEmailShortLocalsUnchanged(text: string, m: string)
    requires forall k :: 0 <= k < |text| && MatchAt(Email, text, k).Some? ==> MatchAt(Email, text, k).value.mid - k <= 4
    ensures MaskEmail(text, m) == text
  {
    forall k | 0 <= k < |text| && MatchAt(Email, text, k).Some?
      ensures Replace(Email, text, k, MatchAt(Email, text, k).value, m) == text[k..MatchAt(Email, text, k).value.end]
    {
      EmailShortLocalKept(text, k, MatchAt(Email, text, k).value, m);
    }
    SubIdentity(Email, text, m, 0);
    assert text[0..] == text;
  }

  // ---------------------------------------------------------------------
  // Phone numbers with a separated area code.
  // ---------------------------------------------------------------------

  lemma {:induction false} DigitsOfConcat(a: string, b: string)
    ensures DigitsOf(a + b) == DigitsOf(a) + DigitsOf(b)
    decreases |a|
  {
    if a == [] {
      assert a + b == b;
    } else {
      ConcatTail(a, b);
      DigitsOfConcat(a[1..], b);
      var head := if IsDigit(a[0]) then [a[0]] else [];
      ConcatAssoc(head, DigitsOf(a[1..]), DigitsOf(b));
    }
  }

  lemma DigitsOfSplit(s: string, a: nat, b: nat, c: nat)
    requires a <= b <= c <= |s|
    ensures DigitsOf(s[a..c]) == DigitsOf(s[a..b]) + DigitsOf(s[b..c])
  {
    assert s[a..c] == s[a..b] + s[b..c];
    DigitsOfConcat(s[a..b], s[b..c]);
  }

  lemma {:induction false} DigitsOfDigits(x: string)
    requires forall k :: 0 <= k < |x| ==> IsDigit(x[k])
    ensures DigitsOf(x) == x
    decreases |x|
  {
    if x != [] {
      DigitsOfDigits(x[1..]);
    }
  }

  lemma {:induction false} DigitsOfNonDigits(x: string)
    requires forall k :: 0 <= k < |x| ==> !IsDigit(x[k])
    ensures DigitsOf(x) == []
    decreases |x|
  {
    if x != [] {
      DigitsOfNonDigits(x[1..]);
    }
  }

  /** The digits of `DDDD-DDDD` (or `DDDDD-DDDD`) are the two digit blocks. */
  lemma BlockDigits(s: string, p: nat, d: nat, e: nat)
    requires p + d + 1 + 4 == e <= |s|
    requires DigitsAt(s, p, d) && s[p + d] == '-' && DigitsAt(s, p + d + 1, 4)
    ensures DigitsOf(s[p..e]) == s[p..p + d] + s[p + d + 1..e]
  {
    var x := s[p..p + d];
    var y := s[p + d + 1..e];
    assert forall k :: 0 <= k < |x| ==> IsDigit(x[k]);
    assert forall k :: 0 <= k < |y| ==> IsDigit(y[k]);
    SliceSplit(s, p, p + d, e);
    SliceCons(s, p + d, e);
    DigitsAroundDash(x, y);
  }

  lemma DigitsAroundDash(x: string, y: string)
    requires forall k :: 0 <= k < |x| ==> IsDigit(x[k])
    requires forall k :: 0 <= k < |y| ==> IsDigit(y[k])
    ensures DigitsOf(x + (['-'] + y)) == x + y
  {
    var dash: string := ['-'];
    DigitsOfNonDigits(dash);
    DigitsOfConcat(dash, y);
    DigitsOfDigits(y);
    assert DigitsOf(dash + y) == y;
    DigitsOfConcat(x, dash + y);
    DigitsOfDigits(x);
  }

  /** What `re.sub(r"\D", "", phone)` leaves of a phone match: its three digit blocks. */
  lemma PhoneDigits(s: string, i: nat, a: nat, p: nat, d: nat, e: nat)
    requires i <= a <= p && p + d + 1 + 4 == e <= |s|
    requires forall k :: i <= k < a ==> !IsDigit(s[k])
    requires DigitsAt(s, a, 2) && a + 2 <= p
    requires forall k :: a + 2 <= k < p ==> !IsDigit(s[k])
    requires DigitsAt(s, p, d) && s[p + d] == '-' && DigitsAt(s, p + d + 1, 4)
    ensures DigitsOf(s[i..e]) == s[a..a + 2] + s[p..p + d] + s[p + d + 1..e]
    ensures |DigitsOf(s[i..e])| == 6 + d
  {
    var w := s[i..a];
    var x := s[a..a + 2];
    var y := s[a + 2..p];
    var z := s[p..e];
    assert forall k :: 0 <= k < |w| ==> !IsDigit(w[k]);
    assert forall k :: 0 <= k < |x| ==> IsDigit(x[k]);
    assert forall k :: 0 <= k < |y| ==> !IsDigit(y[k]);
    SliceSplit4(s, i, a, a + 2, p, e);
    DigitsAroundArea(w, x, y, z);
    BlockDigits(s, p, d, e);
    ConcatAssoc(x, s[p..p + d], s[p + d + 1..e]);
  }

  /** Only the two area-code digits survive from the text before the number. */
  lemma DigitsAroundArea(w: string, x: string, y: string, z: string)
    requires forall k :: 0 <= k < |w| ==> !IsDigit(w[k])
    requires forall k :: 0 <= k < |x| ==> IsDigit(x[k])
    requires forall k :: 0 <= k < |y| ==> !IsDigit(y[k])
    ensures DigitsOf(w + (x + (y + z))) == x + DigitsOf(z)
  {
    DigitsOfConcat(y, z);
    DigitsOfNonDigits(y);
    assert DigitsOf(y + z) == DigitsOf(z);
    DigitsOfConcat(x, y + z);
    DigitsOfDigits(x);
    DigitsOfConcat(w, x + (y + z));
    DigitsOfNonDigits(w);
  }


  /**
   * `(DD)` followed by any whitespace and `DDDDD-DDDD` or `DDDD-DDDD`: the
   * area code and middle block are masked, the gap becomes one space and
   * the last four digits are kept.
   */
  lemma PhoneParenMatch(s: string, i: nat, sp: Span, m: string)
    requires i <= |s| && MatchAt(PhoneParen, s, i) == Some(sp)
    ensures var d := sp.end - sp.mid - 5;
      && (d == 4 || d == 5)
      && Replace(PhoneParen, s, i, sp, m) == "(" + Rep(m, 2) + ") " + Rep(m, d) + "-" + s[sp.end - 4..sp.end]
  {
    assert MatchPhoneParen(s, i) == Some(sp);
    PhoneParenDigits(s, i, sp);
  }

  /** The digits a `(DD)` match covers: two, then the middle block, then the last four. */
  lemma PhoneParenDigits(s: string, i: nat, sp: Span)
    requires i <= |s| && MatchPhoneParen(s, i) == Some(sp)
    ensures var d := sp.end - sp.mid - 5;
      && (d == 4 || d == 5) && i <= sp.end - 4
      && |DigitsOf(s[i..sp.end])| == 6 + d && Tail(DigitsOf(s[i..sp.end]), 4) == s[sp.end - 4..sp.end]
  {
    var p := sp.mid;
    var d := sp.end - p - 5;
    assert p == i + 4 + Run(s, i + 4, Spaces);
    assert MiddleLen(s, p) == Some(d);
    assert forall k :: i + 3 <= k < p ==> !IsDigit(s[k]);
    PhoneDigits(s, i, i + 1, p, d, sp.end);
  }

  /** `DD`, whitespace, then `DDDDD-DDDD` or `DDDD-DDDD`: the same normal form without parentheses. */
  lemma PhoneSpacedMatch(s: string, i: nat, sp: Span, m: string)
    requires i <= |s| && MatchAt(PhoneSpaced, s, i) == Some(sp)
    ensures var d := sp.end - sp.mid - 5;
      && (d == 4 || d == 5)
      && Replace(PhoneSpaced, s, i, sp, m) == Rep(m, 2) + " " + Rep(m, d) + "-" + s[sp.end - 4..sp.end]
  {
    assert MatchPhoneSpaced(s, i) == Some(sp);
    PhoneSpacedDigits(s, i, sp);
  }

  /** The digits a spaced phone match covers. */
  lemma PhoneSpacedDigits(s: string, i: nat, sp: Span)
    requires i <= |s| && MatchPhoneSpaced(s, i) == Some(sp)
    ensures var d := sp.end - sp.mid - 5;
      && (d == 4 || d == 5) && i <= sp.end - 4
      && |DigitsOf(s[i..sp.end])| == 6 + d && Tail(DigitsOf(s[i..sp.end]), 4) == s[sp.end - 4..sp.end]
  {
    var p := sp.mid;
    var d := sp.end - p - 5;
    assert p == i + 2 + Run(s, i + 2, Spaces);
    assert MiddleLen(s, p) == Some(d);
    PhoneDigits(s, i, i, p, d, sp.end);
  }

  // ---------------------------------------------------------------------
  // Medical record numbers.
  // ---------------------------------------------------------------------

  /**
   * A record number has 6 to 10 digits after a case-insensitive label; the
   * label and separator are kept verbatim, the last three digits are kept
   * and every earlier digit is masked.
   */
  lemma LabelledMatch(keyword: string, dot: bool, s: string, i: nat, sp: Span, m: string)
    requires i <= |s| && MatchAt(Labelled(keyword, dot), s, i) == Some(sp)
    ensures FoldEq(s, i, keyword)
    ensures 6 <= sp.end - sp.mid <= 10
    ensures forall k :: sp.mid <= k < sp.end ==> IsDigit(s[k])
    ensures Replace(Labelled(keyword, dot), s, i, sp, m)
            == s[i..sp.mid] + Rep(m, sp.end - sp.mid - 3) + s[sp.end - 3..sp.end]
  {
    assert MatchLabelled(s, i, keyword, dot) == Some(sp);
    LabelledReplace(keyword, dot, s, i, sp, m);
  }

  lemma LabelledReplace(keyword: string, dot: bool, s: string, i: nat, sp: Span, m: string)
    requires SpanFrom(s, i, sp) && sp.end - sp.mid >= 3
    ensures Replace(Labelled(keyword, dot), s, i, sp, m)
            == s[i..sp.mid] + Rep(m, sp.end - sp.mid - 3) + s[sp.end - 3..sp.end]
  {
    assert Tail(s[sp.mid..sp.end], 3) == s[sp.end - 3..sp.end];
  }

  // ---------------------------------------------------------------------
  // Names.
  // ---------------------------------------------------------------------

  /**
   * Prepositions and one-letter words are kept; any other word keeps its
   * first letter and every later letter becomes the mask character.
   */
  lemma MaskWordShape(w: string, m: string)
    requires w != [] && |m| == 1
    ensures |MaskWord(w, m)| == |w| && MaskWord(w, m)[0] == w[0]
    ensures IsPreposition(w) || |w| == 1 ==> MaskWord(w, m) == w
    ensures !IsPreposition(w) && |w| > 1 ==> forall k :: 1 <= k < |w| ==> MaskWord(w, m)[k] == m[0]
  {
  }

  predicate IsWord(w: string)
  {
    w != [] && forall k :: 0 <= k < |w| ==> !IsSpace(w[k])
  }

  lemma {:induction false} WordLengthOfWord(w: string, rest: string)
    requires IsWord(w) && (rest == [] || IsSpace(rest[0]))
    ensures WordLength(w + rest) == |w|
    decreases |w|
  {
    assert (w + rest)[1..] == w[1..] + rest;
    if |w| > 1 {
      WordLengthOfWord(w[1..], rest);
    } else {
      assert w[1..] + rest == rest;
    }
  }

  lemma WordsOfWord(w: string)
    requires IsWord(w)
    ensures Words(w) == [w]
  {
    WordLengthOfWord(w, []);
    assert w + [] == w;
    assert w[..|w|] == w && w[|w|..] == [];
  }

  lemma WordsOfCons(w: string, rest: string)
    requires IsWord(w)
    ensures Words(w + " " + rest) == [w] + Words(rest)
  {
    var t := w + " " + rest;
    assert t == w + (" " + rest);
    WordLengthOfWord(w, " " + rest);
    assert StripLeft(t) == t;
    assert t[..|w|] == w && t[|w|..] == " " + rest;
    assert StripLeft(" " + rest) == StripLeft(rest);
  }

  /** `" ".join(ws).split() == ws` for non-empty words without whitespace. */
  lemma {:induction false} WordsOfJoin(ws: seq<string>)
    requires forall j :: 0 <= j < |ws| ==> IsWord(ws[j])
    ensures Words(Join(ws, " ")) == ws
    decreases |ws|
  {
    if ws == [] {
    } else if |ws| == 1 {
      WordsOfWord(ws[0]);
    } else {
      assert Join(ws, " ") == ws[0] + " " + Join(ws[1..], " ");
      WordsOfCons(ws[0], Join(ws[1..], " "));
      WordsOfJoin(ws[1..]);
      assert ws == [ws[0]] + ws[1..];
    }
  }

  /**
   * The masked name is re-joined with single spaces: splitting it again
   * gives back exactly one masked word per original word.
   */
  lemma MaskedNameWords(ws: seq<string>, m: string)
    requires forall j :: 0 <= j < |ws| ==> IsWord(ws[j])
    requires |m| == 1 && !IsSpace(m[0])
    ensures Words(Join(MaskWords(ws, m), " ")) == MaskWords(ws, m)
    ensures |Words(Join(MaskWords(ws, m), " "))| == |ws|
  {
    var masked := MaskWords(ws, m);
    forall j | 0 <= j < |masked|
      ensures IsWord(masked[j])
    {
      MaskWordShape(ws[j], m);
    }
    WordsOfJoin(masked);
  }

  // ---------------------------------------------------------------------
  // Texts a rule does not touch.
  // ---------------------------------------------------------------------

  /** No fixed-width pattern fits a text shorter than itself. */
  lemma FixedNoMatchShort(shape: string, template: string, s: string)
    requires |s| < |shape|
    ensures forall i :: 0 <= i < |s| ==> MatchAt(Fixed(shape, template), s, i).None?
  {
  }

  /**
   * Every place the pattern could fit covers the non-digit at `j` with a
   * `#`: windows start at most at `|s| - |shape|`, which is at most `j`.
   */
  lemma FixedNoMatchAcross(shape: string, template: string, s: string, j: nat)
    requires j < |s| && !IsDigit(s[j]) && |s| - |shape| <= j < |shape|
    requires forall k :: j - (|s| - |shape|) <= k <= j ==> shape[k] == '#'
    ensures forall i :: 0 <= i < |s| ==> MatchAt(Fixed(shape, template), s, i).None?
  {
    forall i | 0 <= i < |s|
      ensures MatchFixed(s, i, shape).None?
    {
      if i + |shape| <= |s| {
        assert !ShapeChar(s[i + (j - i)], shape[j - i]);
      }
    }
  }

  /** A pattern with a literal separator never fits a run of digits. */
  lemma FixedNoMatchInDigits(shape: string, template: string, s: string, k: nat)
    requires forall j :: 0 <= j < |s| ==> IsDigit(s[j])
    requires k < |shape| && !IsDigit(shape[k]) && shape[k] != '#' && shape[k] != '?'
    ensures forall i :: 0 <= i < |s| ==> MatchAt(Fixed(shape, template), s, i).None?
  {
    forall i | 0 <= i < |s|
      ensures MatchFixed(s, i, shape).None?
    {
      if i + |shape| <= |s| {
        assert !ShapeChar(s[i + k], shape[k]);
      }
    }
  }

  /** A date pattern never fits a run of digits: its third character is the separator. */
  lemma DateNoMatchInDigits(sep: char, s: string)
    requires sep in "/-."
    requires forall j :: 0 <= j < |s| ==> IsDigit(s[j])
    ensures forall i :: 0 <= i < |s| ==> MatchAt(DateRule(sep), s, i).None?
  {
    var shape := DateRule(sep).shape;
    assert shape[2] == sep;
    forall i | 0 <= i < |s|
      ensures MatchFixed(s, i, shape).None?
    {
      if i + |shape| <= |s| {
        assert !ShapeChar(s[i + 2], shape[2]);
      }
    }
  }

  lemma LabelledNoMatch(keyword: string, dot: bool, s: string)
    requires keyword != [] && forall j :: 0 <= j < |s| ==> Fold(s[j]) != Fold(keyword[0])
    ensures forall i :: 0 <= i < |s| ==> MatchAt(Labelled(keyword, dot), s, i).None?
  {
    forall i | 0 <= i < |s|
      ensures MatchLabelled(s, i, keyword, dot).None?
    {
      if i + |keyword| <= |s| {
        assert Fold(s[i + 0]) != Fold(keyword[0]);
      }
    }
  }

  lemma NameNoMatch(s: string)
    requires forall j :: 0 <= j < |s| ==> Fold(s[j]) != 'n'
    ensures forall i :: 0 <= i < |s| ==> MatchAt(NameLine, s, i).None?
  {
    forall i | 0 <= i < |s|
      ensures MatchName(s, i).None?
    {
      if i + 5 <= |s| {
        assert "Nome:"[0] == 'N' && Fold('N') == 'n';
        assert Fold(s[i + 0]) != Fold("Nome:"[0]);
      }
    }
  }

  lemma EmailNoMatch(s: string)
    requires forall j :: 0 <= j < |s| ==> s[j] != '@'
    ensures forall i :: 0 <= i < |s| ==> MatchAt(Email, s, i).None?
  {
  }

  lemma PhoneNoMatch(s: string)
    requires forall j :: 0 <= j < |s| ==> s[j] != '-'
    ensures forall i :: 0 <= i < |s| ==> MatchAt(PhoneParen, s, i).None? && MatchAt(PhoneSpaced, s, i).None?
  {
    forall i | 0 <= i < |s|
      ensures MatchPhoneParen(s, i).None? && MatchPhoneSpaced(s, i).None?
    {
      forall p: nat ensures MiddleLen(s, p).None? {
      }
    }
  }

  lemma {:induction false} ApplyRulesUnchanged(rules: seq<Rule>, text: string, m: string)
    requires forall j, i :: 0 <= j < |rules| && 0 <= i < |text| ==> MatchAt(rules[j], text, i).None?
    ensures ApplyRules(rules, text, m) == text
    decreases |rules|
  {
    if rules != [] {
      SubNoMatch(rules[0], text, m);
      ApplyRulesUnchanged(rules[1..], text, m);
    }
  }

  /** A rule matching the whole of `s` at position 0 replaces all of it. */
  lemma SubWhole(r: Rule, s: string, m: string, sp: Span)
    requires MatchAt(r, s, 0) == Some(sp) && sp.end == |s|
    ensures Sub(r, s, m) == Replace(r, s, 0, sp, m)
  {
    SubFirstMatch(r, s, m, 0, sp);
    assert s[..0] == [];
  }

  // ---------------------------------------------------------------------
  // The order of the rules matters.
  // ---------------------------------------------------------------------

  predicate AllDigits(s: string)
  {
    forall k :: 0 <= k < |s| ==> IsDigit(s[k])
  }

  /** An 11-digit text matches `\b\d{11}\b` as a whole. */
  lemma ElevenDigitsMatch(rule: Rule, d: string, template: string)
    requires |d| == 11 && AllDigits(d) && rule == Fixed("###########", template)
    ensures MatchAt(rule, d, 0) == Some(Span(0, 11))
  {
    assert IsWordChar(d[0]) && IsWordChar(d[10]);
    assert Fits(d, 0, "###########");
  }

  /** The digits of an 11-digit text that the CPF rule keeps. */
  function CpfMasked11(d: string, m: string): string
    requires |d| == 11
  {
    d[..3] + Rep(m, 5) + d[8..]
  }

  lemma CpfMasked11Chars(d: string, m: string)
    requires |d| == 11 && AllDigits(d) && |m| == 1 && !IsWordChar(m[0]) && m[0] != '-' && m[0] != '@'
    ensures |CpfMasked11(d, m)| == 11
    ensures forall k :: 0 <= k < 11 ==> CpfMasked11(d, m)[k] != '-' && CpfMasked11(d, m)[k] != '@'
    ensures forall k :: 0 <= k < 11 ==> Fold(CpfMasked11(d, m)[k]) == CpfMasked11(d, m)[k]
    ensures !IsDigit(CpfMasked11(d, m)[3])
  {
    var t := CpfMasked11(d, m);
    forall k | 0 <= k < 11
      ensures t[k] == d[k] || t[k] == m[0]
    {
      if k < 3 {
        assert t[k] == d[..3][k];
      } else if k >= 8 {
        assert t[k] == d[8..][k - 8];
      }
    }
  }

  /** `mask_phone` leaves the CPF-masked 11-digit text alone. */
  lemma MaskPhoneAfterCpf(d: string, m: string)
    requires |d| == 11 && AllDigits(d) && |m| == 1 && !IsWordChar(m[0]) && m[0] != '-' && m[0] != '@'
    ensures MaskPhone(CpfMasked11(d, m), m) == CpfMasked11(d, m)
  {
    var t := CpfMasked11(d, m);
    CpfMasked11Chars(d, m);
    PhoneNoMatch(t);
    SubNoMatch(PhoneParen, t, m);
    SubNoMatch(PhoneSpaced, t, m);
    FixedNoMatchAcross("###########", "MMMMMMMKKKK", t, 3);
    SubNoMatch(PHONE_PLAIN_11, t, m);
    FixedNoMatchAcross("##########", "MMMMMMKKKK", t, 3);
    SubNoMatch(PHONE_PLAIN_10, t, m);
  }

  /** The passes after `mask_cpf` in `mask_all_pii` leave the CPF-masked 11-digit text alone. */
  lemma LaterRulesAfterCpf(d: string, m: string)
    requires |d| == 11 && AllDigits(d) && |m| == 1 && !IsWordChar(m[0]) && m[0] != '-' && m[0] != '@'
    ensures MaskCep(MaskPhone(MaskEmail(MaskRg(CpfMasked11(d, m), m), m), m), m) == CpfMasked11(d, m)
  {
    RgEmailAfterCpf(d, m);
    MaskPhoneAfterCpf(d, m);
    CepAfterCpf(d, m);
  }

  lemma RgEmailAfterCpf(d: string, m: string)
    requires |d| == 11 && AllDigits(d) && |m| == 1 && !IsWordChar(m[0]) && m[0] != '-' && m[0] != '@'
    ensures MaskEmail(MaskRg(CpfMasked11(d, m), m), m) == CpfMasked11(d, m)
  {
    var t := CpfMasked11(d, m);
    CpfMasked11Chars(d, m);
    FixedNoMatchShort("##.###.###-?", "KK.MMM.MMM-K", t);
    SubNoMatch(RG_FORMATTED, t, m);
    FixedNoMatchAcross("#########", "KKMMMMMKK", t, 3);
    SubNoMatch(RG_PLAIN, t, m);
    EmailNoMatch(t);
    SubNoMatch(Email, t, m);
  }

  lemma CepAfterCpf(d: string, m: string)
    requires |d| == 11 && AllDigits(d) && |m| == 1 && !IsWordChar(m[0]) && m[0] != '-' && m[0] != '@'
    ensures MaskCep(CpfMasked11(d, m), m) == CpfMasked11(d, m)
  {
    var t := CpfMasked11(d, m);
    CpfMasked11Chars(d, m);
    FixedNoMatchAcross("#####-###", "KKKKK-MMM", t, 3);
    SubNoMatch(CEP_FORMATTED, t, m);
    FixedNoMatchAcross("########", "KKKKKMMM", t, 3);
    SubNoMatch(CEP_PLAIN, t, m);
  }

  /** The passes before `mask_cpf` in `mask_all_pii` leave a run of digits alone. */
  lemma EarlierRulesOnDigits(d: string, m: string)
    requires AllDigits(d)
    ensures ProntuarioMasked(MaskBirthDate(MaskName(d, m), m), m) == d
  {
    forall k | 0 <= k < |d| ensures Fold(d[k]) == d[k] {}
    NameNoMatch(d);
    SubNoMatch(NameLine, d, m);
    DateNoMatchInDigits('/', d);
    SubNoMatch(DATE_SLASH, d, m);
    DateNoMatchInDigits('-', d);
    SubNoMatch(DATE_DASH, d, m);
    DateNoMatchInDigits('.', d);
    SubNoMatch(DATE_DOT, d, m);
    forall j | 0 <= j < |PRONTUARIO_PATTERNS|
      ensures forall i :: 0 <= i < |d| ==> MatchAt(PRONTUARIO_PATTERNS[j], d, i).None?
    {
      var r := PRONTUARIO_PATTERNS[j];
      assert r.keyword != [] && !IsDigit(Fold(r.keyword[0]));
      LabelledNoMatch(r.keyword, r.optionalDot, d);
    }
    ApplyRulesUnchanged(PRONTUARIO_PATTERNS, d, m);
  }

  /** `mask_cpf` on a bare 11-digit number keeps its first three and last three digits. */
  lemma MaskCpfElevenDigits(d: string, m: string)
    requires |d| == 11 && AllDigits(d) && |m| == 1
    ensures MaskCpf(d, m) == CpfMasked11(d, m)
  {
    FixedNoMatchShort("###.###.###-##", "KKK.MMM.MMM-KK", d);
    SubNoMatch(CPF_FORMATTED, d, m);
    ElevenDigitsMatch(CPF_PLAIN, d, "KKKMMMMMKKK");
    SubWhole(CPF_PLAIN, d, m, Span(0, 11));
    CpfPlainMatch(d, 0, Span(0, 11), m);
  }

  /** The digits of an 11-digit text that the bare phone rule keeps. */
  function PhoneMasked11(d: string, m: string): string
    requires |d| == 11
  {
    Rep(m, 7) + d[7..]
  }

  lemma PhoneMasked11Chars(d: string, m: string)
    requires |d| == 11 && |m| == 1 && !IsWordChar(m[0])
    ensures |PhoneMasked11(d, m)| == 11 && !IsDigit(PhoneMasked11(d, m)[1])
  {
    assert PhoneMasked11(d, m)[1] == Rep(m, 7)[1];
  }

  /** The two formatted phone rules find nothing in a text without a hyphen. */
  lemma FormattedPhoneStable(d: string, m: string)
    requires forall j :: 0 <= j < |d| ==> d[j] != '-'
    ensures Sub(PhoneSpaced, Sub(PhoneParen, d, m), m) == d
  {
    PhoneNoMatch(d);
    SubNoMatch(PhoneParen, d, m);
    SubNoMatch(PhoneSpaced, d, m);
  }

  /** The bare 11-digit phone rule masks the first seven digits of an 11-digit number. */
  lemma Plain11Eleven(d: string, m: string)
    requires |d| == 11 && AllDigits(d) && |m| == 1
    ensures Sub(PHONE_PLAIN_11, d, m) == PhoneMasked11(d, m)
  {
    ElevenDigitsMatch(PHONE_PLAIN_11, d, "MMMMMMMKKKK");
    SubWhole(PHONE_PLAIN_11, d, m, Span(0, 11));
    Phone11Match(d, 0, Span(0, 11), m);
    assert d[0 + 7..0 + 11] == d[7..];
  }

  /** The first three passes of `mask_phone` on a bare 11-digit number. */
  lemma PhoneElevenFirstPasses(d: string, m: string)
    requires |d| == 11 && AllDigits(d) && |m| == 1
    ensures Sub(PHONE_PLAIN_11, Sub(PhoneSpaced, Sub(PhoneParen, d, m), m), m) == PhoneMasked11(d, m)
  {
    FormattedPhoneStable(d, m);
    Plain11Eleven(d, m);
  }

  /** The bare 10-digit phone rule finds nothing in 11 characters whose second is not a digit. */
  lemma Plain10Stable(u: string, m: string)
    requires |u| == 11 && !IsDigit(u[1])
    ensures Sub(PHONE_PLAIN_10, u, m) == u
  {
    FixedNoMatchAcross("##########", "MMMMMMKKKK", u, 1);
    SubNoMatch(PHONE_PLAIN_10, u, m);
  }

  /** `mask_cpf` finds nothing in 11 characters whose second is not a digit. */
  lemma CpfStable(u: string, m: string)
    requires |u| == 11 && !IsDigit(u[1])
    ensures MaskCpf(u, m) == u
  {
    FixedNoMatchShort("###.###.###-##", "KKK.MMM.MMM-KK", u);
    SubNoMatch(CPF_FORMATTED, u, m);
    FixedNoMatchAcross("###########", "KKKMMMMMKKK", u, 1);
    SubNoMatch(CPF_PLAIN, u, m);
  }

  /** `mask_phone` on a bare 11-digit number keeps only its last four digits. */
  lemma MaskPhoneElevenDigits(d: string, m: string)
    requires |d| == 11 && AllDigits(d) && |m| == 1 && !IsWordChar(m[0])
    ensures MaskPhone(d, m) == PhoneMasked11(d, m)
  {
    PhoneElevenFirstPasses(d, m);
    PhoneMasked11Chars(d, m);
    Plain10Stable(PhoneMasked11(d, m), m);
  }

  /** After `mask_phone`, `mask_cpf` finds nothing left in an 11-digit number. */
  lemma PhoneThenCpf(d: string, m: string)
    requires |d| == 11 && AllDigits(d) && |m| == 1 && !IsWordChar(m[0])
    ensures MaskCpf(MaskPhone(d, m), m) == PhoneMasked11(d, m)
  {
    MaskPhoneElevenDigits(d, m);
    PhoneMasked11Chars(d, m);
    CpfStable(PhoneMasked11(d, m), m);
  }


  /**
   * A bare 11-digit number is masked as a CPF (first three and last three
   * digits kept) by `mask_all_pii`, because the CPF rule runs before the
   * phone rule and its output no longer matches `\b\d{11}\b`.  Run in the
   * opposite order, the phone rule would keep only the last four digits.
   */
  lemma ElevenDigitsMaskedAsCpf(d: string, m: string)
    requires |d| == 11 && AllDigits(d)
    requires |m| == 1 && !IsWordChar(m[0]) && m[0] != '-' && m[0] != '@'
    ensures AllPiiMasked(d, m) == CpfMasked11(d, m) == d[..3] + Rep(m, 5) + d[8..]
    ensures MaskCpf(MaskPhone(d, m), m) == PhoneMasked11(d, m) == Rep(m, 7) + d[7..]
  {
    EarlierRulesOnDigits(d, m);
    MaskCpfElevenDigits(d, m);
    LaterRulesAfterCpf(d, m);
    PhoneThenCpf(d, m);
  }

  // ---------------------------------------------------------------------
  // Dispatch by category name.
  // ---------------------------------------------------------------------

  lemma {:induction false} ApplyNamesUnknown(names: seq<string>, text: string, m: string)
    requires forall j :: 0 <= j < |names| ==> CategoryOf(names[j]).None?
    ensures ApplyNames(names, text, m) == text
    decreases |names|
  {
    if names != [] {
      ApplyNamesUnknown(names[1..], text, m);
    }
  }

  /** Names outside `MASKING_FUNCTIONS` are skipped; an empty list changes nothing. */
  lemma PiiMaskedUnknownSkipped(text: string, names: seq<string>, m: string)
    requires forall j :: 0 <= j < |names| ==> CategoryOf(names[j]).None?
    ensures PiiMasked(text, Some(names), m) == text
  {
    assert "all" !in names by {
      forall j | 0 <= j < |names| ensures names[j] != "all" {
        assert CategoryOf(names[j]).None?;
      }
    }
    ApplyNamesUnknown(names, text, m);
  }

  lemma {:induction false} ApplyNamesConcat(a: seq<string>, b: seq<string>, text: string, m: string)
    ensures ApplyNames(a + b, text, m) == ApplyNames(b, ApplyNames(a, text, m), m)
    decreases |a|
  {
    if a == [] {
      assert a + b == b;
    } else {
      assert (a + b)[0] == a[0] && (a + b)[1..] == a[1..] + b;
      ApplyNamesConcat(a[1..], b, ApplyName(a[0], text, m), m);
    }
  }

  /** Without "all", the listed rules run one after another in the caller's order. */
  lemma PiiMaskedConcat(text: string, a: seq<string>, b: seq<string>, m: string)
    requires "all" !in a + b
    ensures PiiMasked(text, Some(a + b), m) == PiiMasked(PiiMasked(text, Some(a), m), Some(b), m)
  {
    assert "all" !in a && "all" !in b by {
      forall x | x in a ensures x in a + b {}
      forall x | x in b ensures x in a + b {}
    }
    ApplyNamesConcat(a, b, text, m);
  }

  /** A single known name other than "all" applies exactly its own rule. */
  lemma PiiMaskedSingle(text: string, name: string, m: string)
    requires CategoryOf(name).Some? && name != "all"
    ensures PiiMasked(text, Some([name]), m) == ApplyCategory(CategoryOf(name).value, text, m)
  {
    assert "all" !in [name];
    assert ApplyNames([name], text, m) == ApplyNames([], ApplyName(name, text, m), m);
  }

  lemma ApplyNameKnown(name: string, c: Category, text: string, m: string)
    requires CategoryOf(name) == Some(c) && c != All
    ensures ApplyName(name, text, m) == ApplyCategory(c, text, m)
  {
  }

  lemma ApplyNamesCons(name: string, rest: seq<string>, text: string, m: string)
    ensures ApplyNames([name] + rest, text, m) == ApplyNames(rest, ApplyName(name, text, m), m)
  {
    assert ([name] + rest)[0] == name && ([name] + rest)[1..] == rest;
  }

  /** Two known names other than "all" apply their two rules in the order listed. */
  lemma ApplyNamesPair(n1: string, c1: Category, n2: string, c2: Category, text: string, m: string)
    requires CategoryOf(n1) == Some(c1) && c1 != All && CategoryOf(n2) == Some(c2) && c2 != All
    ensures ApplyNames([n1, n2], text, m) == ApplyCategory(c2, ApplyCategory(c1, text, m), m)
  {
    ApplyNamesCons(n1, [n2], text, m);
    ApplyNameKnown(n1, c1, text, m);
    ApplyNamesCons(n2, [], ApplyCategory(c1, text, m), m);
    ApplyNameKnown(n2, c2, ApplyCategory(c1, text, m), m);
  }

  lemma NameThenBirthDate(t: string, m: string)
    ensures ApplyNames(["nome", "birth_date"], t, m) == MaskBirthDate(MaskName(t, m), m)
  {
    NomeBirthDateNames();
    ApplyNamesPair("nome", Nome, "birth_date", BirthDate, t, m);
    NomeCategory(t, m);
    BirthDateCategory(MaskName(t, m), m);
  }

  lemma NomeBirthDateNames()
    ensures CategoryOf("nome") == Some(Nome) && CategoryOf("birth_date") == Some(BirthDate)
  {
  }

  lemma NomeCategory(t: string, m: string)
    ensures ApplyCategory(Nome, t, m) == MaskName(t, m)
  {
  }

  lemma BirthDateCategory(t: string, m: string)
    ensures ApplyCategory(BirthDate, t, m) == MaskBirthDate(t, m)
  {
  }

  lemma ProntuarioCpfNames()
    ensures CategoryOf("prontuario") == Some(Prontuario) && CategoryOf("cpf") == Some(Cpf)
  {
  }

  lemma ProntuarioCategory(t: string, m: string)
    ensures ApplyCategory(Prontuario, t, m) == ProntuarioMasked(t, m)
  {
    CategoryIsProntuario(Prontuario, t, m);
  }

  lemma CategoryIsProntuario(c: Category, t: string, m: string)
    requires c == Prontuario
    ensures ApplyCategory(c, t, m) == ApplyRules(PRONTUARIO_PATTERNS, t, m)
  {
  }

  lemma CpfCategory(t: string, m: string)
    ensures ApplyCategory(Cpf, t, m) == MaskCpf(t, m)
  {
  }

  lemma ProntuarioThenCpf(t: string, m: string)
    ensures ApplyNames(["prontuario", "cpf"], t, m) == MaskCpf(ProntuarioMasked(t, m), m)
  {
    ProntuarioCpfNames();
    ApplyNamesPair("prontuario", Prontuario, "cpf", Cpf, t, m);
    ProntuarioCategory(t, m);
    CpfCategory(ProntuarioMasked(t, m), m);
  }

  lemma ListOrderFirstHalf(t0: string, m: string)
    ensures ApplyNames(["nome", "birth_date", "prontuario", "cpf"], t0, m)
            == MaskCpf(ProntuarioMasked(MaskBirthDate(MaskName(t0, m), m), m), m)
  {
    FourAsPairs("nome", "birth_date", "prontuario", "cpf");
    ApplyNamesConcat(["nome", "birth_date"], ["prontuario", "cpf"], t0, m);
    NameThenBirthDate(t0, m);
    ProntuarioThenCpf(ApplyNames(["nome", "birth_date"], t0, m), m);
  }

  lemma RgEmailNames()
    ensures CategoryOf("rg") == Some(Rg) && CategoryOf("email") == Some(EmailCategory)
  {
  }

  lemma PhoneCepNames()
    ensures CategoryOf("phone") == Some(Phone) && CategoryOf("cep") == Some(Cep)
  {
  }

  lemma RgCategory(t: string, m: string)
    ensures ApplyCategory(Rg, t, m) == MaskRg(t, m)
  {
  }

  lemma EmailCategoryRule(t: string, m: string)
    ensures ApplyCategory(EmailCategory, t, m) == MaskEmail(t, m)
  {
  }

  lemma PhoneCategory(t: string, m: string)
    ensures ApplyCategory(Phone, t, m) == MaskPhone(t, m)
  {
  }

  lemma CepCategory(t: string, m: string)
    ensures ApplyCategory(Cep, t, m) == MaskCep(t, m)
  {
  }

  lemma RgThenEmail(t: string, m: string)
    ensures ApplyNames(["rg", "email"], t, m) == MaskEmail(MaskRg(t, m), m)
  {
    RgEmailNames();
    ApplyNamesPair("rg", Rg, "email", EmailCategory, t, m);
    RgCategory(t, m);
    EmailCategoryRule(MaskRg(t, m), m);
  }

  lemma PhoneThenCep(t: string, m: string)
    ensures ApplyNames(["phone", "cep"], t, m) == MaskCep(MaskPhone(t, m), m)
  {
    PhoneCepNames();
    ApplyNamesPair("phone", Phone, "cep", Cep, t, m);
    PhoneCategory(t, m);
    CepCategory(MaskPhone(t, m), m);
  }

  lemma ListOrderSecondHalf(t4: string, m: string)
    ensures ApplyNames(["rg", "email", "phone", "cep"], t4, m)
            == MaskCep(MaskPhone(MaskEmail(MaskRg(t4, m), m), m), m)
  {
    FourAsPairs("rg", "email", "phone", "cep");
    ApplyNamesConcat(["rg", "email"], ["phone", "cep"], t4, m);
    RgThenEmail(t4, m);
    PhoneThenCep(ApplyNames(["rg", "email"], t4, m), m);
  }

  /**
   * `mask_all_pii` is the same as listing the eight categories in the
   * order name, birth date, record number, CPF, RG, e-mail, phone, CEP.
   */
  lemma AllPiiMaskedIsListOrder(text: string, m: string)
    ensures AllPiiMasked(text, m)
            == PiiMasked(text, Some(["nome", "birth_date", "prontuario", "cpf", "rg", "email", "phone", "cep"]), m)
  {
    assert ["nome", "birth_date", "prontuario", "cpf", "rg", "email", "phone", "cep"] == ["nome", "birth_date", "prontuario", "cpf"] + ["rg", "email", "phone", "cep"];
    assert "all" !in ["nome", "birth_date", "prontuario", "cpf", "rg", "email", "phone", "cep"];
    ApplyNamesConcat(["nome", "birth_date", "prontuario", "cpf"], ["rg", "email", "phone", "cep"], text, m);
    ListOrderFirstHalf(text, m);
    ListOrderSecondHalf(ApplyNames(["nome", "birth_date", "prontuario", "cpf"], text, m), m);
  }


}
