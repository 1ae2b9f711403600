/**
 * The PII masking engine of project/simple_rag/utils/data_masking.py: eight
 * rules, each a fixed sequence of `re.sub` passes, their composition in
 * `mask_all_pii`, and the category dispatch of `mask_pii`.
 *
 * `m` is the `mask_char` argument (a Python `str`, "*" by default).
 */
module PiiMasking {
  import opened Common
  import opened Text
  import opened PiiRegex

  // The patterns, with the replacement each callback builds written as a template.
  const CPF_FORMATTED: Rule := Fixed("###.###.###-##", "KKK.MMM.MMM-KK")
  const CPF_PLAIN: Rule := Fixed("###########", "KKKMMMMMKKK")
  const RG_FORMATTED: Rule := Fixed("##.###.###-?", "KK.MMM.MMM-K")
  const RG_PLAIN: Rule := Fixed("#########", "KKMMMMMKK")
  const CEP_FORMATTED: Rule := Fixed("#####-###", "KKKKK-MMM")
  const CEP_PLAIN: Rule := Fixed("########", "KKKKKMMM")
  const PHONE_PLAIN_11: Rule := Fixed("###########", "MMMMMMMKKKK")
  const PHONE_PLAIN_10: Rule := Fixed("##########", "MMMMMMKKKK")

  /**
   * `\b\d{2}<sep>\d{2}<sep>\d{4}\b`, replaced by the STRING
   * `f"{m * 2}<sep>{m * 2}<sep>{m * 4}"`, whose escapes `re` decodes.
   */
  function DateRule(sep: char): Rule
  {
    Template("##" + [sep] + "##" + [sep] + "####", "MM" + [sep] + "MM" + [sep] + "MMMM")
  }

  const DATE_SLASH: Rule := DateRule('/')
  const DATE_DASH: Rule := DateRule('-')
  const DATE_DOT: Rule := DateRule('.')

  /** The message of the `re.error` a rejected replacement string raises. */
  const RE_ERROR: string := "re.error: bad escape in the replacement string"

  /** The four labelled patterns of `mask_prontuario`, in the order they are applied. */
  const PRONTUARIO_PATTERNS: seq<Rule> := [
    Labelled("Prontu\U{E1}rio", false),
    Labelled("Pront", true),
    Labelled("Registro", false),
    Labelled("N\U{BA} do prontu\U{E1}rio", false)
  ]

  function MaskCpf(text: string, m: string): string
  {
    Sub(CPF_PLAIN, Sub(CPF_FORMATTED, text, m), m)
  }

  function MaskRg(text: string, m: string): string
  {
    Sub(RG_PLAIN, Sub(RG_FORMATTED, text, m), m)
  }

  function MaskCep(text: string, m: string): string
  {
    Sub(CEP_PLAIN, Sub(CEP_FORMATTED, text, m), m)
  }

  function MaskEmail(text: string, m: string): string
  {
    Sub(Email, text, m)
  }

  function MaskPhone(text: string, m: string): string
  {
    Sub(PHONE_PLAIN_10, Sub(PHONE_PLAIN_11, Sub(PhoneSpaced, Sub(PhoneParen, text, m), m), m), m)
  }

  function MaskBirthDate(text: string, m: string): string
  {
    Sub(DATE_DOT, Sub(DATE_DASH, Sub(DATE_SLASH, text, m), m), m)
  }

  /**
   * `mask_birth_date` raises `re.error` when `re` rejects one of its three
   * replacement strings (a mask such as `"\\q"`); `MaskBirthDate` is the
   * text it returns otherwise.
   */
  predicate BirthDateRaises(m: string)
  {
    Rejects(DATE_SLASH, m) || Rejects(DATE_DASH, m) || Rejects(DATE_DOT, m)
  }

  function MaskName(text: string, m: string): string
  {
    Sub(NameLine, text, m)
  }

  /** The passes `rules` applied one after the other, the first one first. */
  function ApplyRules(rules: seq<Rule>, text: string, m: string): string
    decreases |rules|
  {
    if rules == [] then text else ApplyRules(rules[1..], Sub(rules[0], text, m), m)
  }

  lemma {:induction false} ApplyRulesSnoc(rules: seq<Rule>, r: Rule, text: string, m: string)
    ensures ApplyRules(rules + [r], text, m) == Sub(r, ApplyRules(rules, text, m), m)
    decreases |rules|
  {
    if rules != [] {
      assert (rules + [r])[1..] == rules[1..] + [r];
      ApplyRulesSnoc(rules[1..], r, Sub(rules[0], text, m), m);
    }
  }

  function ProntuarioMasked(text: string, m: string): string
  {
    ApplyRules(PRONTUARIO_PATTERNS, text, m)
  }

  /** `mask_prontuario`: the loop over the four labelled patterns. */
  method MaskProntuario(text: string, m: string) returns (r: string)
    ensures r == ProntuarioMasked(text, m)
  {
    r := text;
    for i := 0 to |PRONTUARIO_PATTERNS|
      invariant r == ApplyRules(PRONTUARIO_PATTERNS[..i], text, m)
    {
      ApplyRulesSnoc(PRONTUARIO_PATTERNS[..i], PRONTUARIO_PATTERNS[i], text, m);
      assert PRONTUARIO_PATTERNS[..i + 1] == PRONTUARIO_PATTERNS[..i] + [PRONTUARIO_PATTERNS[i]];
      r := Sub(PRONTUARIO_PATTERNS[i], r, m);
    }
    assert PRONTUARIO_PATTERNS[..|PRONTUARIO_PATTERNS|] == PRONTUARIO_PATTERNS;
  }

  /** The loop of the name callback that builds `masked_parts` from `name_parts`. */
  method MaskNameParts(parts: seq<string>, m: string) returns (masked: seq<string>)
    requires forall k :: 0 <= k < |parts| ==> parts[k] != []
    ensures masked == MaskWords(parts, m)
  {
    masked := [];
    for i := 0 to |parts|
      invariant |masked| == i
      invariant forall k :: 0 <= k < i ==> masked[k] == MaskWord(parts[k], m)
    {
      var part := parts[i];
      var word;
      if IsPreposition(part) || |part| == 1 {
        word := part;
      } else {
        word := [part[0]] + Rep(m, |part| - 1);
      }
      assert word == MaskWord(part, m);
      masked := masked + [word];
    }
    assert |masked| == |MaskWords(parts, m)|;
  }

  /** `mask_all_pii` without custom patterns: the eight rules in their fixed order. */
  function AllPiiMasked(text: string, m: string): string
  {
    var t1 := MaskName(text, m);
    var t2 := MaskBirthDate(t1, m);
    var t3 := ProntuarioMasked(t2, m);
    var t4 := MaskCpf(t3, m);
    var t5 := MaskRg(t4, m);
    var t6 := MaskEmail(t5, m);
    var t7 := MaskPhone(t6, m);
    MaskCep(t7, m)
  }

  /** `mask_all_pii`: the masked text, or the `re.error` that `mask_birth_date` raises. */
  method MaskAllPii(text: string, m: string) returns (r: Result<string, string>)
    ensures r == if BirthDateRaises(m) then Failure(RE_ERROR) else Success(AllPiiMasked(text, m))
  {
    var masked := text;
    masked := MaskName(masked, m);
    if BirthDateRaises(m) {
      return Failure(RE_ERROR);
    }
    masked := MaskBirthDate(masked, m);
    masked := MaskProntuario(masked, m);
    masked := MaskCpf(masked, m);
    masked := MaskRg(masked, m);
    masked := MaskEmail(masked, m);
    masked := MaskPhone(masked, m);
    masked := MaskCep(masked, m);
    return Success(masked);
  }

  /** The entries of `MASKING_FUNCTIONS`. */
  datatype Category = Nome | Cpf | Rg | Cep | EmailCategory | Phone | BirthDate | Prontuario | All

  function CategoryOf(name: string): (c: Option<Category>)
    ensures c == Some(All) <==> name == "all"
    ensures c == Some(BirthDate) <==> name == "birth_date"
  {
    if name == "nome" then Some(Nome)
    else if name == "cpf" then Some(Cpf)
    else if name == "rg" then Some(Rg)
    else if name == "cep" then Some(Cep)
    else if name == "email" then Some(EmailCategory)
    else if name == "phone" then Some(Phone)
    else if name == "birth_date" then Some(BirthDate)
    else if name == "prontuario" then Some(Prontuario)
    else if name == "all" then Some(All)
    else None
  }

  /** The rule a category's entry of `MASKING_FUNCTIONS` applies; "all" never reaches the loop. */
  function ApplyCategory(c: Category, text: string, m: string): string
    requires c != All
  {
    match c
    case Nome => MaskName(text, m)
    case Cpf => MaskCpf(text, m)
    case Rg => MaskRg(text, m)
    case Cep => MaskCep(text, m)
    case EmailCategory => MaskEmail(text, m)
    case Phone => MaskPhone(text, m)
    case BirthDate => MaskBirthDate(text, m)
    case Prontuario => ProntuarioMasked(text, m)
    case All => text
  }

  /** One step of the `mask_pii` loop: known names other than "all" apply their rule. */
  function ApplyName(name: string, text: string, m: string): string
  {
    match CategoryOf(name)
    case Some(c) => if name != "all" then ApplyCategory(c, text, m) else text
    case None => text
  }

  function ApplyNames(names: seq<string>, text: string, m: string): string
    decreases |names|
  {
    if names == [] then text else ApplyNames(names[1..], ApplyName(names[0], text, m), m)
  }

  lemma {:induction false} ApplyNamesSnoc(names: seq<string>, name: string, text: string, m: string)
    ensures ApplyNames(names + [name], text, m) == ApplyName(name, ApplyNames(names, text, m), m)
    decreases |names|
  {
    if names != [] {
      assert (names + [name])[1..] == names[1..] + [name];
      ApplyNamesSnoc(names[1..], name, ApplyName(names[0], text, m), m);
    }
  }

  /** `mask_pii(text, pii_types, m)`. */
  function PiiMasked(text: string, types: Option<seq<string>>, m: string): string
  {
    if types.None? || "all" in types.value then AllPiiMasked(text, m)
    else ApplyNames(types.value, text, m)
  }

  /** Whether `mask_pii` with these categories runs `mask_birth_date`. */
  predicate MasksBirthDates(types: Option<seq<string>>)
  {
    types.None? || "all" in types.value || "birth_date" in types.value
  }

  /**
   * One pass of `mask_pii`'s loop: a known name other than "all" runs its
   * masker, which for "birth_date" may raise `re.error`.
   */
  method MaskNamed(name: string, text: string, m: string) returns (r: Result<string, string>)
    ensures r == if name == "birth_date" && BirthDateRaises(m) then Failure(RE_ERROR)
                 else Success(ApplyName(name, text, m))
  {
    var c := CategoryOf(name);
    if c == Some(BirthDate) && BirthDateRaises(m) {
      return Failure(RE_ERROR);
    }
    if c == Some(Prontuario) {
      var masked := MaskProntuario(text, m);
      ProntuarioName(name, text, m);
      return Success(masked);
    }
    r := Success(ApplyName(name, text, m));
  }

  lemma ProntuarioName(name: string, text: string, m: string)
    requires CategoryOf(name) == Some(Prontuario)
    ensures ApplyName(name, text, m) == ProntuarioMasked(text, m)
  {
    NameCategory(name, text, m);
    ProntuarioCategory(text, m);
  }

  lemma NameCategory(name: string, text: string, m: string)
    requires CategoryOf(name).Some? && CategoryOf(name) != Some(All)
    ensures ApplyName(name, text, m) == ApplyCategory(CategoryOf(name).value, text, m)
  {
  }

  lemma ProntuarioCategory(text: string, m: string)
    ensures ApplyCategory(Prontuario, text, m) == ProntuarioMasked(text, m)
  {
  }


  /** `mask_pii`: the masked text, or the `re.error` that `mask_birth_date` raises. */
  method MaskPii(text: string, types: Option<seq<string>>, m: string) returns (r: Result<string, string>)
    ensures r == if BirthDateRaises(m) && MasksBirthDates(types) then Failure(RE_ERROR)
                 else Success(PiiMasked(text, types, m))
  {
    if types.None? || "all" in types.value {
      r := MaskAllPii(text, m);
      return;
    }
    var names := types.value;
    var masked := text;
    for i := 0 to |names|
      invariant masked == ApplyNames(names[..i], text, m)
      invariant BirthDateRaises(m) ==> "birth_date" !in names[..i]
    {
      ApplyNamesSnoc(names[..i], names[i], text, m);
      assert names[..i + 1] == names[..i] + [names[i]];
      var step := MaskNamed(names[i], masked, m);
      if step.Failure? {
        assert names[i] in names;
        return step;
      }
      masked := step.value;
    }
    assert names[..|names|] == names;
    return Success(masked);
  }
}
