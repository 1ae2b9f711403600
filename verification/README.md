# RN-Transformers in Dafny

A Dafny model of the core of RN-Transformers, a retrieval-augmented question
answering system for PDF documents, together with proofs about that model.
It covers two code bases that live side by side in the repository:

- `project/src/llm_rag` — the PDF processor (page extraction, chunking,
  chunk ids), the vector store over a ChromaDB-like server, the document
  manager, and the four-node answer graph (`analisar → recuperar → formatar
  → gerar`) over `AgentState`;
- `project/simple_rag` — the PII masking engine (`data_masking.py`), the
  batch PDF upload pipeline, the tool-calling agent graph, and the settings
  validators.

Each source file becomes a module:

| module | file | source |
|---|---|---|
| `PiiRegex` | `pii_regex.dfy` | the regular expressions of `data_masking.py` and Python's `re.sub` scan |
| `PiiMasking` | `pii_masking.dfy` | `data_masking.py`: the eight maskers, `mask_all_pii`, `mask_pii` |
| `PiiProperties` | `pii_properties.dfy` | what the maskers do to each match, what they never touch, and how they compose |
| `RagRecords` | `rag_records.dfy` | `graph/state.py` and the chunk metadata dictionaries |
| `RagNodes` | `rag_nodes.dfy` | `graph/nodes.py` |
| `RagWorkflow` | `rag_workflow.dfy` | `graph/workflow.py` |
| `PdfProcessor` | `pdf_processor.dfy` | `llm_rag/pdf_processor.py` |
| `Store` | `vector_store.dfy` | `llm_rag/vector_store.py` |
| `RagAgent` | `rag_agent.dfy` | `llm_rag/agent.py` |
| `SimplePdf` | `simple_pdf.dfy` | `simple_rag/utils/pdf_processor.py` |
| `SimpleAgent` | `simple_agent.dfy` | `simple_rag/agent/agent.py` |
| `SimpleConfig` | `simple_config.dfy` | `simple_rag/config/config.py` |
| `Text`, `Seqs`, `Common` | `text.dfy`, `seqs.dfy`, `common.dfy` | string helpers (`str.lower`, `strip`, `split`, `join`), deduplication, `Option`/`Result` |

## How the model is built

**Regular expressions.** Every pattern of `data_masking.py` is a constructor
of the `Rule` datatype:
- `Fixed(shape, template)` covers the fixed-width patterns whose
  replacement a callback builds (CPF, RG, CEP, bare phone numbers). The
  shape is the pattern and the template is the callback's result, with `K`
  for "keep this character" and `M` for "mask it".
- `Template(shape, template)` covers the three date patterns. Their
  replacement is a string, not a callback, so `re` decodes its backslash
  escapes. `MaskTemplate` builds that string from the mask, `ParseTemplate`
  is `re`'s decoding of it, and a string `re` rejects makes the masker
  raise `re.error`.
- The parenthesised phone, the spaced phone, the labelled record number,
  e-mail and name-line patterns each have their own constructor.

`MatchAt(rule, s, i)` gives the span Python's backtracking matcher finds at
position `i`. The analysis of greedy and lazy quantifiers was done by hand,
and word boundaries (`\b`) look at the original string. `Scan` is the
left-to-right scan of `re.sub` for any matcher and replacement: at each
position it either replaces a match and resumes after it, or copies one
character. `SubFrom` is `Scan` with a rule's matcher and replacement, so
the properties of the scan are proved once, for every rule.

**Loops and state.**
- Loops in the source become methods, each proved equal to a function that
  specifies it. These are:
  - the prontuário pattern loop;
  - the name-part loop;
  - `mask_all_pii` and `mask_pii`;
  - the `fontes` deduplication;
  - the context-block loop;
  - `buscar_documentos`' threshold loop;
  - `listar_documentos`' grouping loop;
  - `extrair_texto_pdf`'s page loop;
  - `processar_pdf`'s chunk loop;
  - the `source_file` tagging loop;
  - `process_pdf_files`;
  - the tool node's loop.
- The objects whose fields change are classes:
  - `Store.VectorStore` holds the server's collections and the selected collection;
  - `RagAgent.DocumentManager` holds its store.

**Things passed in as parameters.** Code outside the model is passed in as
a function:
- language model, embeddings and similarity search;
- PDF reader, text splitter, MD5;
- the score formatting and `round`.

**Behaviour worth noting.**
- **Retrieval failure.** A failed retrieval does not end the graph.
  `recuperar` always goes on to `formatar` and `gerar`, and a successful
  generation clears `erro` (`RagWorkflow.RetrievalFailureStillAnswers`).
  Only an `erro` already present in the input state makes `analisar` go to
  END.
- **Result order.** Search results keep the order of the index. They are
  filtered by the threshold on the unrounded similarity and never re-sorted.
- **Context size.** The context is not truncated to any bound.
- **Docstring examples.** The examples in `data_masking.py`'s docstrings
  (e.g. `"***.***.***.**"` for a CPF) do not match the callbacks, which
  keep the first three and last two CPF digits. The model follows the
  callbacks.
- **Date masks with a backslash.** `mask_birth_date` passes `re.sub` a
  replacement string built from `mask_char`. With `mask_char` equal to a
  backslash, `12/03/1953` becomes `\/\/\\`: each doubled backslash is
  decoded to one (`PiiProperties.DateMatch`). A mask such as `\d` makes
  `mask_birth_date`, `mask_all_pii` and `mask_pii` raise `re.error` whatever
  the text (`PiiProperties.BadEscapeMaskRaises`). Every one-character mask
  is accepted (`PiiProperties.OneCharMaskAccepted`).
- **PDF information without text.** `obter_info_pdf` only opens the file and
  counts its pages. A PDF that opens but has a page whose text cannot be
  read still has its information read, while `extrair_texto_pdf` fails on
  it with `ValueError` (`PdfProcessor.InfoWithoutText`).

## Model

| member | source | states |
|---|---|---|
| PiiRegex.Run | project/simple_rag/utils/data_masking.py:235 | a maximal run of one character class (the `\s+`/`\s*` of the phone patterns): every character in it is in the class and the next one is not |
| PiiRegex.MatchFixed | project/simple_rag/utils/data_masking.py:38 | a fixed-width pattern such as `\b\d{3}\.\d{3}\.\d{3}-\d{2}\b` matches a span of exactly the shape's width, inside the text |
| PiiRegex.MatchEmail | project/simple_rag/utils/data_masking.py:161 | an e-mail match is a span whose local part is non-empty and is followed by the `@` |
| PiiRegex.MiddleLen | project/simple_rag/utils/data_masking.py:221 | the `\d{4,5}-` block of a phone number: four or five digits followed by a dash |
| PiiRegex.MatchPhoneParen | project/simple_rag/utils/data_masking.py:221 | a `(DD)` phone match is a span inside the text |
| PiiRegex.MatchPhoneSpaced | project/simple_rag/utils/data_masking.py:235 | a spaced phone match is a span inside the text |
| PiiRegex.MatchLabelled | project/simple_rag/utils/data_masking.py:321-326 | a record-number match has at least six digits after its label |
| PiiRegex.MatchName | project/simple_rag/utils/data_masking.py:411 | a `Nome:` line match keeps the five-character label in its prefix group |
| PiiRegex.MatchAt | project/simple_rag/utils/data_masking.py:38-47 | what `re.sub`'s matcher finds at a position: a span starting there and ending inside the text |
| PiiRegex.MaskWords | project/simple_rag/utils/data_masking.py:424-432 | each part of a name is masked on its own, and the list keeps its length |
| PiiRegex.SubNoMatch | project/simple_rag/utils/data_masking.py:39 | `re.sub` leaves a text with no match unchanged |
| PiiRegex.SubFirstMatch | project/simple_rag/utils/data_masking.py:39 | `re.sub` copies the text before the first match, replaces the match, and resumes the scan after it |
| PiiRegex.SubSkip | project/simple_rag/utils/data_masking.py:39 | a stretch without a match is copied verbatim |
| PiiRegex.SubLength | project/simple_rag/utils/data_masking.py:36-48 | a rule whose replacement keeps the width of the match keeps the length of the whole text (one-character `mask_char`) |
| PiiRegex.SubIdentity | project/simple_rag/utils/data_masking.py:168-169 | a rule that replaces every match by itself changes nothing |
| PiiRegex.FixedKeepsOrMasks | project/simple_rag/utils/data_masking.py:33-45 | each character of a fixed-width replacement is either the original character or the mask character, as the callback's f-string says |
| PiiRegex.ReplaceWidth | project/simple_rag/utils/data_masking.py:36-45 | a width-keeping replacement is exactly as long as its match |
| PiiMasking.MaskProntuario | project/simple_rag/utils/data_masking.py:299-339 | the pattern loop applies the four labelled patterns in order |
| PiiMasking.MaskNameParts | project/simple_rag/utils/data_masking.py:421-432 | the loop over name parts masks each part as `mask_full_name` does |
| PiiMasking.MaskAllPii | project/simple_rag/utils/data_masking.py:342-380 | the eight maskers applied in `mask_all_pii`'s order; `re.error` when the mask builds a date replacement string `re` rejects |
| PiiMasking.CategoryOf | project/simple_rag/utils/data_masking.py:442-452 | the `MASKING_FUNCTIONS` lookup: `"all"` and only `"all"` names the composite masker |
| PiiMasking.MaskPii | project/simple_rag/utils/data_masking.py:455-490 | `mask_pii`: all categories when the list is absent or names `"all"`, otherwise the named maskers in list order, skipping unknown names; `re.error` when the birth-date masker runs with a mask that builds a rejected replacement string |
| PiiMasking.MaskNamed | project/simple_rag/utils/data_masking.py:485-488 | one pass of `mask_pii`'s loop: a known name other than `"all"` applies its masker, an unknown name leaves the text alone, and `"birth_date"` raises `re.error` exactly when the mask builds a rejected replacement string |
| PiiMasking.ApplyRulesSnoc | project/simple_rag/utils/data_masking.py:336-337 | one more pattern in the loop is one more `re.sub` on the result so far |
| PiiMasking.ApplyNamesSnoc | project/simple_rag/utils/data_masking.py:485-488 | one more category name is one more masker applied to the result so far |
| PiiProperties.MaskCpfMasksDigits | project/simple_rag/utils/data_masking.py:11-50 | `mask_cpf` keeps the text's length and every character, except digits it turns into the mask character |
| PiiProperties.MaskRgMasksDigits | project/simple_rag/utils/data_masking.py:53-96 | the same for `mask_rg` |
| PiiProperties.MaskCepMasksDigits | project/simple_rag/utils/data_masking.py:99-138 | the same for `mask_cep` |
| PiiProperties.MaskBirthDateMasksDigits | project/simple_rag/utils/data_masking.py:259-296 | the same for `mask_birth_date` |
| PiiProperties.MaskProntuarioMasksDigits | project/simple_rag/utils/data_masking.py:299-339 | the same for `mask_prontuario`; labels and separators are kept |
| PiiProperties.MaskEmailMasksLocalChars | project/simple_rag/utils/data_masking.py:141-179 | `mask_email` only masks characters of the local-part class and keeps the text's length |
| PiiProperties.SubMasksOnly | project/simple_rag/utils/data_masking.py:39 | a `re.sub` pass whose every replacement only masks characters of a class only masks characters of that class in the whole text |
| PiiProperties.Sub2MasksOnly | project/simple_rag/utils/data_masking.py:39-48 | two such passes in a row, as every masker runs them, still only mask characters of that class |
| PiiProperties.ApplyRulesMasksOnly | project/simple_rag/utils/data_masking.py:336-337 | any sequence of such passes only masks characters of that class |
| PiiProperties.SubFromMasksOnly | project/simple_rag/utils/data_masking.py:39 | the scan from any position only masks characters of the class |
| PiiProperties.ReplaceMasksOnly | project/simple_rag/utils/data_masking.py:33-45 | a single replacement only masks characters of its rule's class |
| PiiProperties.FixedMasksOnly | project/simple_rag/utils/data_masking.py:33-45 | a fixed-width replacement only masks the digits its template marks |
| PiiProperties.LabelledMasksOnly | project/simple_rag/utils/data_masking.py:328-334 | `mask_number` keeps the label and the last three digits and masks the other digits |
| PiiProperties.EmailMasksOnly | project/simple_rag/utils/data_masking.py:163-175 | `replace_email` only masks local-part characters |
| PiiProperties.MasksOnlyTrans | project/simple_rag/utils/data_masking.py:366-373 | masking only characters of a class is preserved when maskers are chained |
| PiiProperties.MasksOnlyConcat | project/simple_rag/utils/data_masking.py:39 | masking two pieces separately masks their concatenation |
| PiiProperties.CpfFormattedMatch | project/simple_rag/utils/data_masking.py:33-39 | a formatted CPF `ddd.ddd.ddd-dd` becomes its first three digits, `.***.***-` and its last two digits |
| PiiProperties.CpfPlainMatch | project/simple_rag/utils/data_masking.py:42-48 | an 11-digit CPF keeps its first three and last three digits and masks the five between |
| PiiProperties.RgFormattedMatch | project/simple_rag/utils/data_masking.py:75-85 | a formatted RG keeps its first two digits and its check character, and masks the two middle groups |
| PiiProperties.RgPlainMatch | project/simple_rag/utils/data_masking.py:88-94 | a 9-digit RG keeps its first two and last two digits |
| PiiProperties.CepFormattedMatch | project/simple_rag/utils/data_masking.py:121-127 | a formatted CEP keeps its first five digits and masks the three after the dash |
| PiiProperties.CepPlainMatch | project/simple_rag/utils/data_masking.py:130-136 | an 8-digit CEP keeps its first five digits and masks the last three |
| PiiProperties.Phone11Match | project/simple_rag/utils/data_masking.py:239-245 | an 11-digit phone number shows only its last four digits |
| PiiProperties.Phone10Match | project/simple_rag/utils/data_masking.py:248-254 | a 10-digit phone number shows only its last four digits |
| PiiProperties.PhoneParenMatch | project/simple_rag/utils/data_masking.py:210-222 | `(DD)` plus any spaces and a 4- or 5-digit block becomes `(**) ` plus that many mask characters, a dash and the last four digits |
| PiiProperties.PhoneParenDigits | project/simple_rag/utils/data_masking.py:213-216 | `re.sub(r"\D", "", phone)` of such a match has 10 or 11 digits, and its last four are the match's last four characters |
| PiiProperties.PhoneSpacedMatch | project/simple_rag/utils/data_masking.py:225-236 | a spaced phone number becomes two mask characters, one space, the masked middle block and the last four digits |
| PiiProperties.PhoneSpacedDigits | project/simple_rag/utils/data_masking.py:227-230 | the digits of a spaced phone match: 10 or 11 of them, ending with the match's last four characters |
| PiiProperties.DateMatch | project/simple_rag/utils/data_masking.py:280-294 | a date in any of the three formats is a ten-character match replaced by two masks, the separator, two masks, the separator and four masks; with a backslash mask `re` decodes each pair, giving `\<sep>\<sep>\\` |
| PiiProperties.DateMasksDigits | project/simple_rag/utils/data_masking.py:280-294 | each date replacement keeps the separators and masks only digits, for any mask other than a backslash |
| PiiProperties.DateTemplateText | project/simple_rag/utils/data_masking.py:282-283 | the replacement string is the f-string `{m*2}<sep>{m*2}<sep>{m*4}` |
| PiiProperties.DateNoMatchInDigits | project/simple_rag/utils/data_masking.py:280-294 | no date pattern matches inside a run of digits |
| PiiProperties.OneCharMaskAccepted | project/simple_rag/utils/data_masking.py:280-294 | `re` accepts the date replacement strings for every one-character mask |
| PiiProperties.BadEscapeMaskRaises | project/simple_rag/utils/data_masking.py:280-284 | a mask starting with a backslash and a letter without an escape makes `mask_birth_date` raise |
| PiiProperties.BackslashDateText | project/simple_rag/utils/data_masking.py:280-284 | with a backslash mask, the decoded replacement is `\<sep>\<sep>\\` |
| PiiProperties.TemplateReplaceMasksOnly | project/simple_rag/utils/data_masking.py:280-294 | a replacement string that decodes to itself and marks only digit positions only masks digits |
| PiiRegex.ParseLiteral | project/simple_rag/utils/data_masking.py:282-283 | `re` inserts a replacement string without a backslash as it is |
| PiiRegex.DoubledDecodes | project/simple_rag/utils/data_masking.py:282-283 | `re` accepts a replacement string whose every backslash is doubled and inserts the original text |
| PiiRegex.ExpandedBackslash | project/simple_rag/utils/data_masking.py:282-283 | `re` decodes a doubled backslash to one backslash |
| PiiRegex.ExpandedPlain | project/simple_rag/utils/data_masking.py:282-283 | a character other than a backslash is inserted as it is, ahead of the rest of the decoded string |
| PiiRegex.MaskTemplatePlain | project/simple_rag/utils/data_masking.py:282-283 | a mask without a backslash builds a replacement string without one |
| PiiRegex.MaskTemplateIsFill | project/simple_rag/utils/data_masking.py:282-283 | a replacement string that keeps no match character is the same string the width-keeping fill gives |
| PiiProperties.EmailShortLocalKept | project/simple_rag/utils/data_masking.py:168-169 | an address whose local part has at most four characters is left as it is |
| PiiProperties.EmailLongLocalMasked | project/simple_rag/utils/data_masking.py:170-175 | a longer local part keeps its first four characters and masks the rest, and the domain is kept |
| PiiProperties.MaskedLocalPart | project/simple_rag/utils/data_masking.py:170-175 | the masked address keeps the first four local characters and the domain, and masks every other local character |
| PiiProperties.MaskEmailShortLocalsUnchanged | project/simple_rag/utils/data_masking.py:163-177 | a text whose every address has a short local part is unchanged by `mask_email` |
| PiiProperties.LabelledMatch | project/simple_rag/utils/data_masking.py:321-334 | a record-number match starts with its label (case-insensitive) and has 6 to 10 digits; the replacement keeps the label and separator and shows only the last three digits |
| PiiProperties.LabelledReplace | project/simple_rag/utils/data_masking.py:328-334 | `mask_number` keeps everything before the digits and the last three digits, and masks the digits before those |
| PiiProperties.MaskWordShape | project/simple_rag/utils/data_masking.py:424-432 | a name part keeps its length and first letter; prepositions and one-letter parts are kept whole, the rest of every other part is masked |
| PiiProperties.MaskedNameWords | project/simple_rag/utils/data_masking.py:421-434 | joining the masked parts with single spaces and splitting again gives back the masked parts, one per original part |
| PiiProperties.WordsOfJoin | project/simple_rag/utils/data_masking.py:421-434 | `" ".join` then `split()` of space-free words gives back the words |
| PiiProperties.FixedNoMatchShort | project/simple_rag/utils/data_masking.py:38-47 | a fixed-width pattern never matches a text shorter than its width |
| PiiProperties.FixedNoMatchInDigits | project/simple_rag/utils/data_masking.py:38 | a pattern with a literal separator never matches inside a run of digits |
| PiiProperties.FixedNoMatchAcross | project/simple_rag/utils/data_masking.py:47 | a non-digit in the middle of a text stops a digits-only pattern spanning it |
| PiiProperties.LabelledNoMatch | project/simple_rag/utils/data_masking.py:321-326 | a text without the label's first letter (case-insensitive) has no record-number match |
| PiiProperties.NameNoMatch | project/simple_rag/utils/data_masking.py:411 | a text without an `n`/`N` has no `Nome:` match |
| PiiProperties.EmailNoMatch | project/simple_rag/utils/data_masking.py:161 | a text without `@` has no e-mail match |
| PiiProperties.PhoneNoMatch | project/simple_rag/utils/data_masking.py:221-235 | a text without a dash has no parenthesised or spaced phone match |
| PiiProperties.ApplyRulesUnchanged | project/simple_rag/utils/data_masking.py:336-337 | patterns that match nowhere leave the text unchanged |
| PiiProperties.SubWhole | project/simple_rag/utils/data_masking.py:39 | when the match is the whole text, `re.sub` returns the replacement |
| PiiProperties.DigitsOfConcat | project/simple_rag/utils/data_masking.py:213 | removing non-digits commutes with concatenation |
| PiiProperties.ElevenDigitsMatch | project/simple_rag/utils/data_masking.py:47 | an 11-digit text is matched whole by `\b\d{11}\b` |
| PiiProperties.MaskCpfElevenDigits | project/simple_rag/utils/data_masking.py:42-48 | `mask_cpf` on 11 digits keeps the first three and last three |
| PiiProperties.CpfMasked11Chars | project/simple_rag/utils/data_masking.py:45 | the masked CPF has no dash, no `@` and no digit at position 3, so the later maskers cannot match it |
| PiiProperties.MaskPhoneAfterCpf | project/simple_rag/utils/data_masking.py:182-256 | `mask_phone` leaves a CPF that was already masked unchanged |
| PiiProperties.RgEmailAfterCpf | project/simple_rag/utils/data_masking.py:53-179 | `mask_rg` and `mask_email` leave a masked CPF unchanged |
| PiiProperties.CepAfterCpf | project/simple_rag/utils/data_masking.py:99-138 | `mask_cep` leaves a masked CPF unchanged |
| PiiProperties.LaterRulesAfterCpf | project/simple_rag/utils/data_masking.py:370-373 | the four maskers after `mask_cpf` in `mask_all_pii` leave a masked CPF unchanged |
| PiiProperties.EarlierRulesOnDigits | project/simple_rag/utils/data_masking.py:366-368 | the name, date and record-number maskers leave a bare run of digits unchanged |
| PiiProperties.PhoneMasked11Chars | project/simple_rag/utils/data_masking.py:242 | a masked 11-digit phone is 11 characters long and has no digit at position 1 |
| PiiProperties.MaskPhoneElevenDigits | project/simple_rag/utils/data_masking.py:239-245 | `mask_phone` on 11 bare digits shows only the last four |
| PiiProperties.PhoneThenCpf | project/simple_rag/utils/data_masking.py:369-372 | `mask_cpf` leaves an 11-digit number that `mask_phone` already masked unchanged |
| PiiProperties.ElevenDigitsMaskedAsCpf | project/simple_rag/utils/data_masking.py:366-373 | an 11-digit number is masked as a CPF by `mask_all_pii` (the first three and last three digits stay visible), but as a phone by `mask_phone` alone (only the last four) |
| PiiProperties.ApplyNamesUnknown | project/simple_rag/utils/data_masking.py:485-488 | unknown category names are skipped |
| PiiProperties.PiiMaskedUnknownSkipped | project/simple_rag/utils/data_masking.py:481-490 | `mask_pii` with only unknown names returns the text unchanged |
| PiiProperties.PiiMaskedConcat | project/simple_rag/utils/data_masking.py:484-490 | masking with a list `a + b` is masking with `a`, then with `b` |
| PiiProperties.PiiMaskedSingle | project/simple_rag/utils/data_masking.py:485-488 | masking with one known name applies exactly that masker |
| PiiProperties.ApplyNamesConcat | project/simple_rag/utils/data_masking.py:485-488 | the name loop over `a + b` is the loop over `a`, then over `b` |
| PiiProperties.ApplyNamesPair | project/simple_rag/utils/data_masking.py:485-488 | two known names apply their two maskers in list order |
| PiiProperties.ListOrderFirstHalf | project/simple_rag/utils/data_masking.py:366-369 | the list `nome, birth_date, prontuario, cpf` applies those four maskers in that order |
| PiiProperties.ListOrderSecondHalf | project/simple_rag/utils/data_masking.py:370-373 | the list `rg, email, phone, cep` applies those four maskers in that order |
| PiiProperties.AllPiiMaskedIsListOrder | project/simple_rag/utils/data_masking.py:342-380 | `mask_all_pii` is `mask_pii` with the eight category names listed in `mask_all_pii`'s order |
| RagNodes.AnalisarConsulta | project/src/llm_rag/graph/nodes.py:55-80 | retrieval is not needed exactly when the lower-cased, stripped query is a greeting or the stripped query is shorter than 3 characters; no other field changes |
| RagNodes.NeedsRetrievalIgnoresCase | project/src/llm_rag/graph/nodes.py:71-74 | lower-casing a query does not change whether it needs retrieval |
| RagNodes.NeedsRetrievalIgnoresPadding | project/src/llm_rag/graph/nodes.py:72-74 | surrounding whitespace does not change whether a query needs retrieval |
| RagNodes.LowerIdempotent | project/src/llm_rag/graph/nodes.py:72 | lower-casing twice is lower-casing once |
| RagNodes.StripPadded | project/src/llm_rag/graph/nodes.py:72-74 | `strip` removes any whitespace padding on both sides |
| RagNodes.StripLeftLower | project/src/llm_rag/graph/nodes.py:72 | stripping commutes with lower-casing (left side) |
| RagNodes.StripRightLower | project/src/llm_rag/graph/nodes.py:72 | stripping commutes with lower-casing (right side) |
| RagNodes.FontesOfProperties | project/src/llm_rag/graph/nodes.py:105-114 | the sources have no duplicates, are exactly the projections of the retrieved documents, and are no more numerous than the documents |
| RagNodes.FontesOfDistinctDocuments | project/src/llm_rag/graph/nodes.py:105-114 | documents with distinct projections give one source each, in order |
| RagNodes.CollectFontes | project/src/llm_rag/graph/nodes.py:105-114 | the `if fonte not in fontes` loop computes the first-seen deduplication |
| RagNodes.Recuperado | project/src/llm_rag/graph/nodes.py:83-129 | no retrieval leaves the state unchanged; a successful search stores the documents, their sources and clears `erro`; a failed one stores no documents or sources and the error message; no other field changes |
| RagNodes.RecuperarDocumentos | project/src/llm_rag/graph/nodes.py:83-129 | the node's loop computes `Recuperado` |
| RagNodes.Block | project/src/llm_rag/graph/nodes.py:161-163 | each context block starts with `[Documento ` and ends with a newline |
| RagNodes.Formatado | project/src/llm_rag/graph/nodes.py:132-167 | the context is empty exactly when retrieval was not needed, is the fixed sentence when no document was retrieved, and no other field changes |
| RagNodes.ContextoSnoc | project/src/llm_rag/graph/nodes.py:153-165 | one more document appends the separator and its numbered block |
| RagNodes.ContextoSingle | project/src/llm_rag/graph/nodes.py:153-165 | one document gives its block alone, numbered 1 |
| RagNodes.JoinSnoc | project/src/llm_rag/graph/nodes.py:165 | `sep.join` of one more part appends the separator and the part |
| RagNodes.BuildContexto | project/src/llm_rag/graph/nodes.py:153-163 | the `enumerate` loop builds the blocks numbered from 1 |
| RagNodes.FormatarContexto | project/src/llm_rag/graph/nodes.py:132-167 | the node computes `Formatado` |
| RagNodes.PromptFor | project/src/llm_rag/graph/nodes.py:187-230 | the grounded prompt is used exactly when retrieval was needed and the context is non-empty, and it carries that context and the query |
| RagNodes.Gerado | project/src/llm_rag/graph/nodes.py:170-247 | success stores the model's answer and clears `erro`; failure stores the apologetic message with the error and sets `erro` to it; nothing else changes |
| RagNodes.GeradoIgnoresHistory | project/src/llm_rag/graph/nodes.py:179-233 | the conversation history does not affect the answer |
| RagNodes.DecidirProximoNo | project/src/llm_rag/graph/nodes.py:250-265 | END exactly when `erro` is a non-empty string; otherwise `gerar` exactly when retrieval is not needed, `recuperar` exactly when it is |
| RagWorkflow.Next | project/src/llm_rag/graph/workflow.py:34-50 | the graph's edges: `analisar` routes by the decision function, then `recuperar → formatar → gerar → END`; every edge moves strictly forward |
| RagWorkflow.RunFrom | project/src/llm_rag/graph/workflow.py:34-50 | a run visits at most as many nodes as remain before END and starts at its node |
| RagWorkflow.Invoke | project/src/llm_rag/graph/workflow.py:34 | a run starts at `analisar` and visits at most four nodes |
| RagWorkflow.InvokeCases | project/src/llm_rag/graph/workflow.py:28-50 | the three runs: an input `erro` stops after `analisar`; a greeting goes `analisar → gerar`; any other query goes through all four nodes, and the final state is the composition of the node functions |
| RagWorkflow.FullPathFinal | project/src/llm_rag/graph/workflow.py:37-50 | a query that needs retrieval ends in `gerar(formatar(recuperar(analisar(s))))` |
| RagWorkflow.InvokePaths | project/src/llm_rag/graph/workflow.py:37-50 | each of the three node sequences happens exactly under its condition |
| RagWorkflow.RecuperarAtMostOnce | project/src/llm_rag/graph/workflow.py:37-50 | no node runs twice, and `recuperar` runs only for queries that need retrieval |
| RagWorkflow.GreetingAnsweredWithoutContext | project/src/llm_rag/graph/workflow.py:37-50 | a greeting is answered from the ungrounded prompt and keeps the documents and sources it came in with |
| RagWorkflow.RetrievalFailureStillAnswers | project/src/llm_rag/graph/workflow.py:48-50 | a failed retrieval still runs `formatar` and `gerar`: the context becomes the no-documents sentence, and a successful generation clears the error |
| RagWorkflow.FinalErrorIsGenerationError | project/src/llm_rag/graph/nodes.py:242-247 | an error left in the final state always comes with the apologetic answer that embeds it |
| RagWorkflow.ErrorInputEndsAtOnce | project/src/llm_rag/graph/workflow.py:37-45 | a state that already carries `erro` ends after `analisar` with only `precisa_recuperacao` updated |
| PdfProcessor.ToDict | project/src/llm_rag/pdf_processor.py:37-47 | `to_dict` has exactly the keys `texto`, `metadata` and `chunk_id` |
| PdfProcessor.ToDictRoundTrip | project/src/llm_rag/pdf_processor.py:37-47 | the dictionary gives back the chunk it was made from |
| PdfProcessor.RFind | project/src/llm_rag/pdf_processor.py:148 | the last occurrence of a character, or -1 |
| PdfProcessor.PathName | project/src/llm_rag/pdf_processor.py:169 | `Path.name`: the final component, a suffix of the path without `/` |
| PdfProcessor.Suffix | project/src/llm_rag/pdf_processor.py:86 | `Path.suffix` is empty or starts with a dot |
| PdfProcessor.StemSuffix | project/src/llm_rag/pdf_processor.py:148 | `stem + suffix` is the name, and a non-empty suffix holds a single dot after a non-empty stem |
| PdfProcessor.KeptPagesSound | project/src/llm_rag/pdf_processor.py:96-107 | every extracted page is a page of the document with its 1-based number, the document's page count and non-blank text |
| PdfProcessor.KeptPagesComplete | project/src/llm_rag/pdf_processor.py:96-107 | every page whose text is not blank is extracted |
| PdfProcessor.KeptPagesOrdered | project/src/llm_rag/pdf_processor.py:96-107 | extracted pages are in strictly increasing page order |
| PdfProcessor.Extracted | project/src/llm_rag/pdf_processor.py:70-114 | a missing file is `FileNotFoundError`, a name whose lower-cased suffix is not `.pdf` is `ValueError`, a failure to open is reported as `ValueError`, and it succeeds exactly when the file opens and every page is readable |
| PdfProcessor.ExtrairTextoPdf | project/src/llm_rag/pdf_processor.py:70-114 | the page loop computes `Extracted` |
| PdfProcessor.ObterInfoPdf | project/src/llm_rag/pdf_processor.py:187-211 | a missing file is `FileNotFoundError`; otherwise it succeeds exactly when the reader opens the file, with the file's name, byte size and page count, and the opening error passes through uncaught |
| PdfProcessor.InfoWithoutText | project/src/llm_rag/pdf_processor.py:96-112 | a PDF that opens but has an unreadable page has its information read while text extraction fails with `ValueError` |
| PdfProcessor.ReadPagesSpec | project/src/llm_rag/pdf_processor.py:96-97 | reading the pages succeeds iff every page is readable, giving each page's text in order; otherwise it gives the first unreadable page's error |
| PdfProcessor.InfoAgreesWithPages | project/src/llm_rag/pdf_processor.py:96-107 | every extracted page records the page count `obter_info_pdf` reports, and its number lies between 1 and that count |
| PdfProcessor.ChunkIdSeesOnlyPrefix | project/src/llm_rag/pdf_processor.py:116-129 | chunk ids of texts that agree on their first 100 characters are equal |
| PdfProcessor.ChunkIdContentSeparates | project/src/llm_rag/pdf_processor.py:128 | texts that differ in their first 100 characters are hashed from different strings |
| PdfProcessor.PiecesCount | project/src/llm_rag/pdf_processor.py:154-183 | the number of chunks is the sum of the splitter's piece counts |
| PdfProcessor.PiecesPageOrder | project/src/llm_rag/pdf_processor.py:154-183 | chunks come in page order, each from one of the extracted pages |
| PdfProcessor.ChunksOfMetadata | project/src/llm_rag/pdf_processor.py:161-183 | chunk `k` carries its piece's text, `chunk_index == k`, the document id, the file name and its page number |
| PdfProcessor.Processed | project/src/llm_rag/pdf_processor.py:131-185 | an extraction error propagates, and every chunk carries the given id or else the file stem |
| PdfProcessor.AppendPageChunks | project/src/llm_rag/pdf_processor.py:162-183 | the inner loop appends a page's chunks with the running `chunk_index` |
| PdfProcessor.ProcessarPdf | project/src/llm_rag/pdf_processor.py:131-185 | the two nested loops compute `Processed` |
| Store.EntriesOf | project/src/llm_rag/vector_store.py:136-152 | each stored entry carries its chunk's id, text and metadata |
| Store.Kept | project/src/llm_rag/vector_store.py:196-214 | the threshold keeps at most as many results as the query returned |
| Store.KeptAppend | project/src/llm_rag/vector_store.py:198-212 | the filter works hit by hit, in the query's order |
| Store.KeptMembers | project/src/llm_rag/vector_store.py:198-212 | a result is a hit whose similarity `1 - distance` reaches the threshold, and every such hit gives a result |
| Store.KeptAllPass | project/src/llm_rag/vector_store.py:198-212 | when every hit passes, the results are the hits in order |
| Store.Filtered | project/src/llm_rag/vector_store.py:191 | a `where` filter keeps exactly the entries whose metadata satisfies it |
| Store.DeletionPartition | project/src/llm_rag/vector_store.py:231-246 | the chunks of a document and the remaining ones split the collection |
| Store.NothingToDelete | project/src/llm_rag/vector_store.py:237-246 | when nothing matches, the collection is untouched |
| Store.IdsOfMembers | project/src/llm_rag/vector_store.py:265-275 | the grouped ids are exactly the truthy `documento_id`s |
| Store.Listed | project/src/llm_rag/vector_store.py:264-277 | one entry per distinct id, in first-seen order |
| Store.ListedProperties | project/src/llm_rag/vector_store.py:264-277 | listed ids are distinct and are exactly the ids present, and each `num_chunks` is the id's positive number of chunks |
| Store.ListedTotal | project/src/llm_rag/vector_store.py:264-277 | the `num_chunks` add up to the number of chunks that have an id |
| Store.FirstWithIsFirst | project/src/llm_rag/vector_store.py:267-273 | a document's name and page count come from its first chunk |
| Store.VectorStore.constructor | project/src/llm_rag/vector_store.py:21-34 | a store starts with no collection selected |
| Store.VectorStore.CriarColecao | project/src/llm_rag/vector_store.py:84-115 | gets or creates the named collection (the configured one by default), selects it, and leaves an existing one as it is |
| Store.VectorStore.AdicionarDocumentos | project/src/llm_rag/vector_store.py:117-157 | no collection is `ValueError`; otherwise the chunks are appended and their number returned |
| Store.VectorStore.Buscado | project/src/llm_rag/vector_store.py:159-214 | no collection is `ValueError`; otherwise the thresholded hits of the query, with the configured `top_k` when no count is given |
| Store.VectorStore.BuscarDocumentos | project/src/llm_rag/vector_store.py:159-214 | the threshold loop computes `Buscado` |
| Store.VectorStore.DeletarDocumento | project/src/llm_rag/vector_store.py:216-246 | removes exactly the document's chunks and returns their number (0 when none) |
| Store.VectorStore.ListarDocumentos | project/src/llm_rag/vector_store.py:248-277 | the grouping loop computes `Listed` |
| Store.VectorStore.ContarDocumentos | project/src/llm_rag/vector_store.py:279-291 | the number of chunks in the collection |
| Store.VectorStore.LimparColecao | project/src/llm_rag/vector_store.py:293-308 | the collection is dropped and recreated empty under the same name; other collections are untouched |
| RagAgent.Plano | project/src/llm_rag/agent.py:38-53 | a missing file is `FileNotFoundError`, an oversized one is `ValueError` with the size message, and a success holds `obter_info_pdf`'s info within the limit and `processar_pdf`'s chunks |
| RagAgent.ReportedIdMatchesChunks | project/src/llm_rag/agent.py:53-59 | the id `indexar_pdf` reports is the id on every chunk, except when the given id is the empty string: then the report shows the stem while the chunks carry `""`, and listing finds no document for them |
| RagAgent.NoIdsWhenEmpty | project/src/llm_rag/vector_store.py:266-275 | chunks whose `documento_id` is `""` are never listed |
| RagAgent.DeletionSucceedsIffPresent | project/src/llm_rag/agent.py:75-90 | `sucesso` holds exactly when the document had a chunk, and `chunks_deletados` is the number removed |
| RagAgent.StatisticsBounded | project/src/llm_rag/agent.py:96-109 | there are never more documents than chunks, and no chunks means no documents |
| RagAgent.DocumentManager.constructor | project/src/llm_rag/agent.py:19-26 | the manager selects (and creates when missing) the configured collection |
| RagAgent.DocumentManager.IndexarPdf | project/src/llm_rag/agent.py:28-65 | on success appends the chunks and reports id, name, pages, size and chunk count; on failure the store is untouched |
| RagAgent.DocumentManager.DeletarDocumento | project/src/llm_rag/agent.py:75-90 | removes the document's chunks and reports as `DeletionSucceedsIffPresent` states |
| RagAgent.DocumentManager.LimparTodosDocumentos | project/src/llm_rag/agent.py:92-94 | the collection is emptied |
| RagAgent.DocumentManager.ObterEstatisticas | project/src/llm_rag/agent.py:96-109 | the statistics of the current collection |
| RagAgent.EstadoInicial | project/src/llm_rag/agent.py:134-147 | the initial state: the query, the history (or none), empty results, retrieval needed and no error |
| RagAgent.QueryErrorIsGenerationError | project/src/llm_rag/agent.py:120-158 | a query always gets past `analisar`, and an error in the response comes with the apologetic answer |
| RagAgent.GreetingUsesNoDocuments | project/src/llm_rag/agent.py:150-158 | a greeting reports no documents and no sources |
| RagAgent.RetrievalQueryUsesSearchResult | project/src/llm_rag/agent.py:150-158 | a retrieval query reports the number of documents found and their sources, or none when the search failed |
| SimplePdf.Tagged | project/simple_rag/utils/pdf_processor.py:41-42 | tagging keeps the number of pages |
| SimplePdf.TaggedProperties | project/simple_rag/utils/pdf_processor.py:41-42 | every page keeps its text and other metadata and gets `source_file` set to the file name |
| SimplePdf.TagSourceFile | project/simple_rag/utils/pdf_processor.py:41-42 | the in-place loop computes `Tagged` |
| SimplePdf.SingleOutcome | project/simple_rag/utils/pdf_processor.py:14-64 | an error always adds no chunk and starts with the file name and a colon; there is no error exactly when the load succeeded with at least one page and the store accepted the chunks |
| SimplePdf.ProcessSinglePdf | project/simple_rag/utils/pdf_processor.py:14-64 | computes `SingleOutcome` |
| SimplePdf.ProcessPdfFiles | project/simple_rag/utils/pdf_processor.py:67-107 | the total is the sum of the files' chunk counts, the errors are their non-empty messages in order, and the progress messages are reported for each file, numbered from 1 |
| SimplePdf.ProgressMessages | project/simple_rag/utils/pdf_processor.py:87-92 | one progress message per processed file |
| SimplePdf.BatchSplits | project/simple_rag/utils/pdf_processor.py:87-101 | a batch of `a + b` totals and reports as `a` then `b`: a failing file does not stop the ones after it |
| SimplePdf.ErrorsAreFailures | project/simple_rag/utils/pdf_processor.py:99-101 | the errors are exactly one message per failing file, in file order |
| SimplePdf.FailingFiles | project/simple_rag/utils/pdf_processor.py:99-101 | the failing files are files whose processing reported an error |
| SimpleAgent.Apply | project/simple_rag/agent/agent.py:35-39 | `messages` is appended to by the `operator.add` reducer; `llm_calls` is overwritten when a node sets it |
| SimpleAgent.LlmInput | project/simple_rag/agent/agent.py:51-54 | the model sees the system message followed by the whole history |
| SimpleAgent.OllamaCall | project/simple_rag/agent/agent.py:42-58 | the model node appends one AI message, the model's reply to the system message followed by the whole history, and counts one more call (from 0 when the key is absent) |
| SimpleAgent.ShouldContinue | project/simple_rag/agent/agent.py:83-100 | the tool node exactly when the last message is an AI message with tool calls, END otherwise, and `IndexError` on an empty history |
| SimpleAgent.ToolResultsSpec | project/simple_rag/agent/agent.py:73-79 | the loop succeeds exactly when every tool is known, giving one tool message per call in order; otherwise it fails with `KeyError` on the first unknown name |
| SimpleAgent.ToolResultsFailurePersists | project/simple_rag/agent/agent.py:73-79 | once a call fails, the calls after it are not run |
| SimpleAgent.ToolNode | project/simple_rag/agent/agent.py:61-80 | a last message without tool calls gives no messages, and everything the node returns is a tool message |
| SimpleAgent.RunToolNode | project/simple_rag/agent/agent.py:61-80 | the tool loop computes `ToolNode` |
| SimpleAgent.ModelMessagesAppend | project/simple_rag/agent/agent.py:38 | counting AI messages is additive over appended histories |
| SimpleAgent.RunProperties | project/simple_rag/agent/agent.py:103-123 | a finished run only appends to the history, ends with an AI message that calls no tool, and counts exactly one model call per AI message it appended |
| SimpleAgent.SingleTurnWithoutTools | project/simple_rag/agent/agent.py:113-119 | when the model calls no tool, the run is one model call and ends |
| SimpleConfig.ValidateChunkOverlap | project/simple_rag/config/config.py:76-85 | the overlap is accepted exactly when it is below the chunk size, or below 1000 when no valid size was given |
| SimpleConfig.ValidateLogLevel | project/simple_rag/config/config.py:87-95 | a level is accepted exactly when its upper-case form is one of the five levels, and it is returned upper-cased |
| SimpleConfig.LogLevelNormalForm | project/simple_rag/config/config.py:87-95 | validation is idempotent, and every level written in lower case is accepted |
| SimpleConfig.Validate | project/simple_rag/config/config.py:43-95 | accepted settings have a positive chunk size, a non-negative overlap below the size, a positive `retrieval_k` and a valid level; a rejection names at least one field |
| SimpleConfig.DefaultOverlapIsNotChecked | project/simple_rag/config/config.py:46-48 | the default overlap is not validated: size 100 with the default overlap 200 is accepted |
| SimpleConfig.OverlapAgainstDefaultSize | project/simple_rag/config/config.py:76-85 | after an invalid chunk size the overlap is checked against 1000 |
| SimpleConfig.SplitSlashJoin | project/simple_rag/config/config.py:97-99 | splitting `x/y` at slashes gives the pieces of `x` then those of `y` |
| SimpleConfig.CleanAppend | project/simple_rag/config/config.py:97-99 | dropping empty and `.` components is additive |
| SimpleConfig.JoinProperties | project/simple_rag/config/config.py:97-99 | `base / x / y` is `base / "x/y"`, and an absolute `data_dir` replaces the base |
| SimpleConfig.JoinNeutral | project/simple_rag/config/config.py:97-99 | an empty or `.` `data_dir` gives the base directory itself |
| Seqs.DedupElements | project/src/llm_rag/graph/nodes.py:113-114 | first-seen deduplication keeps exactly the elements of its input |
| Seqs.DedupDistinct | project/src/llm_rag/graph/nodes.py:113-114 | the result has no duplicates |
| Seqs.DedupFirstSeenOrder | project/src/llm_rag/graph/nodes.py:113-114 | the result is in the order of first occurrence |
| Seqs.DedupOfDistinct | project/src/llm_rag/graph/nodes.py:113-114 | a list without duplicates is unchanged |
| Text.Strip | project/src/llm_rag/graph/nodes.py:72 | `str.strip` leaves no whitespace at either end |
| Text.StripLeft | project/src/llm_rag/graph/nodes.py:72 | the left strip removes exactly the leading whitespace |
| Text.StripRight | project/src/llm_rag/graph/nodes.py:72 | the right strip removes exactly the trailing whitespace |
| Text.Lower | project/src/llm_rag/graph/nodes.py:72 | `str.lower` maps each character |
| Text.Rep | project/simple_rag/utils/data_masking.py:36 | `mask_char * n` |
| Text.Tail | project/simple_rag/utils/data_masking.py:36 | `s[-n:]`, all of `s` when it is shorter |
| Text.Head | project/src/llm_rag/pdf_processor.py:128 | `s[:n]`, all of `s` when it is shorter |
| Text.NatToString | project/simple_rag/utils/pdf_processor.py:89-92 | `str(n)`: a non-empty string of decimal digits |
| Text.WordLength | project/simple_rag/utils/data_masking.py:421 | the first word of a text that `split()` sees |

## Left out

- The PDF reader, text splitter, embedding model, ChromaDB client, language
  models, tools and MD5 are not modelled. They are parameters of the
  operations that call them, and only their results and failures are
  modelled.
- Logging and `print` calls are left out, and so is the `config.debug`
  output.
- Configuration loading (`llm_rag/config.py`, `.env`) is left out. Its
  values (`top_k`, the similarity threshold, the upload limit, the collection
  name) are parameters.
- Floating point is left out. `round(x, 4)`, `round(x, 2)` and `{score:.2f}`
  are parameters, and sizes and scores are `real`.
- `Store.VectorStore.AdicionarDocumentos`: the embeddings are not modelled.
  ChromaDB's handling of duplicate ids is not modelled either: the entries
  are appended.
- `Store.VectorStore.Buscado`: the query's nearest-neighbour ranking and its
  `n_results` cut are a parameter. The model captures the threshold filter
  and the formatting.
- `Store.VectorStore.CriarColecao`: the `metadata` argument and the
  distance configuration are not modelled.
- `_conectar_chromadb`'s retry loop and the `sleep` between attempts are not
  modelled; the network is outside the model.
- Only some collaborator failures are modelled, each as one failure value:
  the search and generation results of `RagNodes`, the PDF reader's open
  and page-text errors (`PdfProcessor.PdfFile`), and the loader and
  `add_documents` results of `SimplePdf`. The others are left out in the
  lines below.
- `Store.VectorStore`: exceptions raised by the ChromaDB client are not
  modelled. The `query` parameter is total, and `CriarColecao`,
  `AdicionarDocumentos`, `DeletarDocumento`, `ContarDocumentos` and
  `LimparColecao` fail only when no collection is selected.
- `SimpleAgent.OllamaCall`: the chat model is a total function. An exception
  raised by `llm_with_tools.invoke` is not modelled.
- `SimplePdf.ProcessSinglePdf`: the text splitter is a total function. An
  exception raised by `split_documents`, which the source would report as
  that file's error, is not modelled.
- `processar_consulta_streaming`, the Chainlit UIs (`ui/app.py`, `main.py`)
  and the retriever tool (`tools/retriever.py`) are not part of this model.
- `asyncio.to_thread` is not modelled. `process_pdf_files` is modelled as a
  sequential loop, which is how the source awaits each file.
- The `custom_patterns` argument of `mask_all_pii` is not modelled: it
  applies arbitrary user regular expressions.
- Unicode is modelled only in part. `\w`, `\s`, `str.lower`/`upper` and
  `re.IGNORECASE` are exact for Latin-1. Characters above U+00FF count as
  non-word, non-space and without case.
- `\d` is ASCII digits only. The other Unicode decimal digits that Python's
  `\d` also accepts are not modelled.
- `SimpleAgent.RunFrom`: LangGraph's recursion limit is a step budget
  parameter. Running out of it is the `RecursionLimit` error.
- `SimpleAgent.ToolNode`: a tool's `invoke` is a pure function from
  arguments to its result text. Exceptions raised by tools are not modelled.
- `PiiProperties.MaskBirthDateMasksDigits` excludes the backslash mask.
  `re` decodes that replacement string to half as many backslashes, so the
  text gets shorter (`PiiProperties.DateMatch` states what it becomes).
- `PiiProperties.MaskCpfMasksDigits`, `MaskRgMasksDigits`,
  `MaskCepMasksDigits`, `MaskBirthDateMasksDigits`,
  `MaskProntuarioMasksDigits` and `MaskEmailMasksLocalChars` require a
  one-character `mask_char`. With a longer one the maskers change the text's
  length.
- `SimpleConfig.Validate` covers only the four validated fields. The
  `ollama_temperature` bounds are left out: they are floats.
- `PdfProcessor.ObterInfoPdf`: the PDF's own metadata dictionary is not
  modelled.
- `PiiRegex.ParseTemplate`: `\g<name>` group references are errors in the
  model except for `\g<0>` written with ASCII zeros. The date patterns have
  no groups, and `re` also accepts other spellings of group 0 such as
  `\g<+0>` or non-ASCII zeros in some Python versions.
