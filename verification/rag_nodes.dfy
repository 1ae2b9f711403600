/**
 * The nodes of the answer graph (project/src/llm_rag/graph/nodes.py).  Each
 * node maps an `AgentState` to a new one.  The vector search, the language
 * model and the `:.2f` rendering of a score are not part of this model:
 * they are the oracles of an `Env`.  A Python exception raised by an oracle
 * is its `Failure(str(e))`.
 */
module RagNodes {
  import opened Common
  import opened Text
  import opened Seqs
  import opened RagRecords

  /** The two prompts `gerar_resposta` can send: with a context, or for a greeting or general question. */
  datatype Prompt = Grounded(contexto: string, consulta: string) | Ungrounded(consulta: string)

  datatype Env = Env(
    buscar: string -> Result<seq<Document>, string>,  // vector_store.buscar_documentos(consulta, top_k)
    llm: Prompt -> Result<string, string>,              // criar_llm().invoke(mensagens).content
    formatScore: real -> string)                        // f"{score:.2f}"

  const SAUDACOES: seq<string> := ["oi", "ol\U{E1}", "bom dia", "boa tarde", "boa noite", "hello", "hi"]
  const SEM_DOCUMENTOS: string := "Nenhum documento relevante foi encontrado."
  const ERRO_RECUPERACAO: string := "Erro ao recuperar documentos: "
  const ERRO_GERACAO: string := "Desculpe, ocorreu um erro ao gerar a resposta: "
  const SEPARADOR: string := "\n---\n"

  // ---------------------------------------------------------------- analisar

  /** The query, lower-cased and stripped, is one of the seven greetings. */
  predicate IsGreeting(consulta: string)
  {
    Strip(Lower(consulta)) in SAUDACOES
  }

  predicate NeedsRetrieval(consulta: string)
  {
    !(IsGreeting(consulta) || |Strip(consulta)| < 3)
  }

  /** `analisar_consulta`: only the retrieval flag changes. */
  function AnalisarConsulta(s: AgentState): (r: AgentState)
    ensures !r.precisaRecuperacao <==> Strip(Lower(s.consulta)) in SAUDACOES || |Strip(s.consulta)| < 3
    ensures r.(precisaRecuperacao := s.precisaRecuperacao) == s
  {
    s.(precisaRecuperacao := NeedsRetrieval(s.consulta))
  }

  lemma LowerCharIdempotent(c: char)
    ensures LowerChar(LowerChar(c)) == LowerChar(c)
    ensures IsSpace(LowerChar(c)) == IsSpace(c)
  {
  }

  lemma {:induction false} StripLeftLower(s: string)
    ensures StripLeft(Lower(s)) == Lower(StripLeft(s))
    decreases |s|
  {
    if s != [] {
      LowerCharIdempotent(s[0]);
      assert Lower(s)[1..] == Lower(s[1..]);
      StripLeftLower(s[1..]);
    }
  }

  lemma {:induction false} StripRightLower(s: string)
    ensures StripRight(Lower(s)) == Lower(StripRight(s))
    decreases |s|
  {
    if s != [] {
      var n := |s| - 1;
      LowerCharIdempotent(s[n]);
      assert Lower(s)[..n] == Lower(s[..n]);
      StripRightLower(s[..n]);
    }
  }

  lemma LowerIdempotent(s: string)
    ensures Lower(Lower(s)) == Lower(s)
  {
    forall k | 0 <= k < |s| ensures Lower(Lower(s))[k] == Lower(s)[k] {
      LowerCharIdempotent(s[k]);
    }
  }

  /** Whether a query needs retrieval does not depend on its letter case. */
  lemma NeedsRetrievalIgnoresCase(consulta: string)
    ensures NeedsRetrieval(Lower(consulta)) == NeedsRetrieval(consulta)
  {
    LowerIdempotent(consulta);
    StripLeftLower(consulta);
    StripRightLower(StripLeft(consulta));
    assert Strip(Lower(consulta)) == Lower(Strip(consulta));
  }

  predicate AllSpace(s: string)
  {
    forall k :: 0 <= k < |s| ==> IsSpace(s[k])
  }

  lemma {:induction false} StripLeftSpaces(bl: string, x: string)
    requires AllSpace(bl)
    ensures StripLeft(bl + x) == StripLeft(x)
    decreases |bl|
  {
    if bl != [] {
      assert (bl + x)[0] == bl[0] && IsSpace(bl[0]);
      assert (bl + x)[1..] == bl[1..] + x;
      assert StripLeft(bl + x) == StripLeft(bl[1..] + x);
      assert AllSpace(bl[1..]);
      StripLeftSpaces(bl[1..], x);
    } else {
      assert bl + x == x;
    }
  }

  lemma {:induction false} StripRightSpaces(x: string, br: string)
    requires AllSpace(br)
    ensures StripRight(x + br) == StripRight(x)
    decreases |br|
  {
    if br != [] {
      var n := |br| - 1;
      assert (x + br)[|x + br| - 1] == br[n] && IsSpace(br[n]);
      assert (x + br)[..|x + br| - 1] == x + br[..n];
      assert StripRight(x + br) == StripRight(x + br[..n]);
      assert AllSpace(br[..n]);
      StripRightSpaces(x, br[..n]);
    } else {
      assert x + br == x;
    }
  }

  lemma {:induction false} StripLeftAppend(x: string, br: string)
    requires AllSpace(br)
    ensures StripLeft(x + br) == if StripLeft(x) == [] then [] else StripLeft(x) + br
    decreases |x|
  {
    if x == [] {
      assert x + br == [] + br;
      StripLeftSpaces(br, []);
      assert br + [] == br;
    } else {
      assert (x + br)[0] == x[0] && (x + br)[1..] == x[1..] + br;
      if IsSpace(x[0]) {
        StripLeftAppend(x[1..], br);
      }
    }
  }

  lemma LowerConcat(a: string, b: string)
    ensures Lower(a + b) == Lower(a) + Lower(b)
  {
    assert forall k :: 0 <= k < |a + b| ==> Lower(a + b)[k] == LowerChar((a + b)[k]);
  }

  lemma LowerSpaces(bl: string)
    requires AllSpace(bl)
    ensures Lower(bl) == bl
  {
    assert forall k :: 0 <= k < |bl| ==> Lower(bl)[k] == bl[k];
  }

  lemma StripPadded(bl: string, q: string, br: string)
    requires AllSpace(bl) && AllSpace(br)
    ensures Strip(bl + q + br) == Strip(q)
  {
    assert bl + q + br == bl + (q + br);
    StripLeftSpaces(bl, q + br);
    StripLeftAppend(q, br);
    if StripLeft(q) != [] {
      StripRightSpaces(StripLeft(q), br);
    }
  }

  /** Whitespace around the query does not change whether it needs retrieval. */
  lemma NeedsRetrievalIgnoresPadding(bl: string, q: string, br: string)
    requires AllSpace(bl) && AllSpace(br)
    ensures NeedsRetrieval(bl + q + br) == NeedsRetrieval(q)
  {
    StripPadded(bl, q, br);
    LowerConcat(bl + q, br);
    LowerConcat(bl, q);
    LowerSpaces(bl);
    LowerSpaces(br);
    StripPadded(bl, Lower(q), br);
  }

  // --------------------------------------------------------------- recuperar

  function FonteOf(d: Document): Fonte
  {
    Fonte(d.metadata.documentoNome, d.metadata.numeroPagina, d.score)
  }

  function Projections(docs: seq<Document>): seq<Fonte>
  {
    seq(|docs|, k requires 0 <= k < |docs| => FonteOf(docs[k]))
  }

  /** `fontes`: the projections of the documents, exact duplicates removed, in first-seen order. */
  function FontesOf(docs: seq<Document>): seq<Fonte>
  {
    Dedup(Projections(docs))
  }

  lemma FontesOfProperties(docs: seq<Document>)
    ensures Distinct(FontesOf(docs))
    ensures forall f :: f in FontesOf(docs) <==> exists k :: 0 <= k < |docs| && f == FonteOf(docs[k])
    ensures |FontesOf(docs)| <= |docs|
  {
    var p := Projections(docs);
    DedupDistinct(p);
    DedupElements(p);
    forall f ensures f in FontesOf(docs) <==> exists k :: 0 <= k < |docs| && f == FonteOf(docs[k]) {
      if f in p {
        var k :| 0 <= k < |p| && p[k] == f;
        assert f == FonteOf(docs[k]);
      }
      if exists k :: 0 <= k < |docs| && f == FonteOf(docs[k]) {
        var k :| 0 <= k < |docs| && f == FonteOf(docs[k]);
        assert p[k] == f;
      }
    }
    DedupLength(p);
  }

  /** When no two documents share a projection, every document has its own source entry. */
  lemma FontesOfDistinctDocuments(docs: seq<Document>)
    requires forall i, j :: 0 <= i < j < |docs| ==> FonteOf(docs[i]) != FonteOf(docs[j])
    ensures FontesOf(docs) == Projections(docs)
  {
    DedupOfDistinct(Projections(docs));
  }

  /** The append-if-absent loop that builds `fontes`. */
  method CollectFontes(docs: seq<Document>) returns (fontes: seq<Fonte>)
    ensures fontes == FontesOf(docs)
  {
    fontes := [];
    for i := 0 to |docs|
      invariant fontes == Dedup(Projections(docs[..i]))
    {
      var fonte := FonteOf(docs[i]);
      assert Projections(docs[..i + 1])[..i] == Projections(docs[..i]);
      if fonte !in fontes {
        fontes := fontes + [fonte];
      }
    }
    assert docs[..|docs|] == docs;
  }

  /** `recuperar_documentos`. */
  function Recuperado(env: Env, s: AgentState): (r: AgentState)
    ensures !s.precisaRecuperacao ==> r == s
    ensures r.(documentosRecuperados := s.documentosRecuperados, fontes := s.fontes, erro := s.erro) == s
    ensures s.precisaRecuperacao && env.buscar(s.consulta).Success? ==>
              r.documentosRecuperados == env.buscar(s.consulta).value && r.erro == None
              && r.fontes == FontesOf(r.documentosRecuperados)
    ensures s.precisaRecuperacao && env.buscar(s.consulta).Failure? ==>
              r.documentosRecuperados == [] && r.fontes == []
              && r.erro == Some(ERRO_RECUPERACAO + env.buscar(s.consulta).error)
  {
    if !s.precisaRecuperacao then s
    else
      match env.buscar(s.consulta)
      case Success(docs) => s.(documentosRecuperados := docs, fontes := FontesOf(docs), erro := None)
      case Failure(e) => s.(documentosRecuperados := [], fontes := [], erro := Some(ERRO_RECUPERACAO + e))
  }

  method RecuperarDocumentos(env: Env, s: AgentState) returns (r: AgentState)
    ensures r == Recuperado(env, s)
  {
    if !s.precisaRecuperacao {
      return s;
    }
    match env.buscar(s.consulta)
    case Success(docs) =>
      var fontes := CollectFontes(docs);
      r := s.(documentosRecuperados := docs, fontes := fontes, erro := None);
    case Failure(e) =>
      r := s.(documentosRecuperados := [], fontes := [], erro := Some(ERRO_RECUPERACAO + e));
  }

  // ---------------------------------------------------------------- formatar

  function NomeOr(d: Document): string
  {
    match d.metadata.documentoNome
    case Some(n) => n
    case None => "Desconhecido"
  }

  function PaginaOr(d: Document): string
  {
    match d.metadata.numeroPagina
    case Some(p) => IntToString(p)
    case None => "?"
  }

  function ScoreOr(d: Document): real
  {
    match d.score
    case Some(x) => x
    case None => 0.0
  }

  /** The context block of the `idx`-th document (numbered from 1). */
  function Block(idx: nat, d: Document, fmt: real -> string): (b: string)
    ensures |b| > 11 && b[..11] == "[Documento " && b[|b| - 1] == '\n'
  {
    "[Documento " + NatToString(idx) + ": " + NomeOr(d) + " - P\U{E1}gina " + PaginaOr(d)
      + " - Relev\U{E2}ncia: " + fmt(ScoreOr(d)) + "]\n" + d.texto + "\n"
  }

  function Blocks(docs: seq<Document>, fmt: real -> string): seq<string>
  {
    seq(|docs|, k requires 0 <= k < |docs| => Block(k + 1, docs[k], fmt))
  }

  function ContextoOf(s: AgentState, fmt: real -> string): string
  {
    if !s.precisaRecuperacao then ""
    else if s.documentosRecuperados == [] then SEM_DOCUMENTOS
    else Join(Blocks(s.documentosRecuperados, fmt), SEPARADOR)
  }

  /** `formatar_contexto`: only the context changes, and it is empty exactly when no retrieval is needed. */
  function Formatado(env: Env, s: AgentState): (r: AgentState)
    ensures r.(contexto := s.contexto) == s
    ensures r.contexto == "" <==> !s.precisaRecuperacao
    ensures s.precisaRecuperacao && s.documentosRecuperados == [] ==> r.contexto == SEM_DOCUMENTOS
  {
    var c := ContextoOf(s, env.formatScore);
    assert s.precisaRecuperacao && s.documentosRecuperados != [] ==> c != "" by {
      if s.precisaRecuperacao && s.documentosRecuperados != [] {
        JoinStartsWithFirst(Blocks(s.documentosRecuperados, env.formatScore), SEPARADOR);
      }
    }
    s.(contexto := c)
  }

  lemma {:induction false} JoinStartsWithFirst(parts: seq<string>, sep: string)
    requires parts != []
    ensures |Join(parts, sep)| >= |parts[0]| && Join(parts, sep)[..|parts[0]|] == parts[0]
  {
    if |parts| > 1 {
      assert Join(parts, sep) == parts[0] + (sep + Join(parts[1..], sep));
    }
  }

  lemma {:induction false} JoinSnoc(parts: seq<string>, x: string, sep: string)
    requires parts != []
    ensures Join(parts + [x], sep) == Join(parts, sep) + sep + x
    decreases |parts|
  {
    var q := parts + [x];
    assert q[0] == parts[0] && q[1..] == parts[1..] + [x];
    if |parts| > 1 {
      JoinSnoc(parts[1..], x, sep);
    }
  }

  /**
   * One more document adds one block at the end, numbered after the others:
   * the blocks appear in input order, separated by `SEPARADOR`.
   */
  lemma ContextoSnoc(s: AgentState, d: Document, fmt: real -> string)
    requires s.precisaRecuperacao && s.documentosRecuperados != []
    ensures ContextoOf(s.(documentosRecuperados := s.documentosRecuperados + [d]), fmt)
            == ContextoOf(s, fmt) + SEPARADOR + Block(|s.documentosRecuperados| + 1, d, fmt)
  {
    var docs := s.documentosRecuperados;
    assert Blocks(docs + [d], fmt) == Blocks(docs, fmt) + [Block(|docs| + 1, d, fmt)];
    JoinSnoc(Blocks(docs, fmt), Block(|docs| + 1, d, fmt), SEPARADOR);
  }

  /** A single document gives a single block and no separator. */
  lemma ContextoSingle(s: AgentState, d: Document, fmt: real -> string)
    requires s.precisaRecuperacao && s.documentosRecuperados == [d]
    ensures ContextoOf(s, fmt) == Block(1, d, fmt)
  {
  }

  /** The `enumerate(documentos, 1)` loop that builds `contexto_parts`. */
  method BuildContexto(docs: seq<Document>, fmt: real -> string) returns (parts: seq<string>)
    ensures parts == Blocks(docs, fmt)
  {
    parts := [];
    var idx := 1;
    for i := 0 to |docs|
      invariant idx == i + 1
      invariant parts == Blocks(docs[..i], fmt)
    {
      parts := parts + [Block(idx, docs[i], fmt)];
      idx := idx + 1;
    }
    assert docs[..|docs|] == docs;
  }

  method FormatarContexto(env: Env, s: AgentState) returns (r: AgentState)
    ensures r == Formatado(env, s)
  {
    if !s.precisaRecuperacao {
      return s.(contexto := "");
    }
    if s.documentosRecuperados == [] {
      return s.(contexto := SEM_DOCUMENTOS);
    }
    var parts := BuildContexto(s.documentosRecuperados, env.formatScore);
    r := s.(contexto := Join(parts, SEPARADOR));
  }

  // ------------------------------------------------------------------- gerar

  /** The prompt `gerar_resposta` builds: grounded iff retrieval is wanted and there is a context. */
  function PromptFor(s: AgentState): (p: Prompt)
    ensures p.Grounded? <==> s.precisaRecuperacao && s.contexto != ""
    ensures p.consulta == s.consulta
    ensures p.Grounded? ==> p.contexto == s.contexto
  {
    if s.precisaRecuperacao && s.contexto != "" then Grounded(s.contexto, s.consulta)
    else Ungrounded(s.consulta)
  }

  /** `gerar_resposta`: an LLM failure becomes an apology, never an exception. */
  function Gerado(env: Env, s: AgentState): (r: AgentState)
    ensures r.(resposta := s.resposta, erro := s.erro) == s
    ensures env.llm(PromptFor(s)).Success? ==> r.resposta == env.llm(PromptFor(s)).value && r.erro == None
    ensures env.llm(PromptFor(s)).Failure? ==>
              r.resposta == ERRO_GERACAO + env.llm(PromptFor(s)).error && r.erro == Some(env.llm(PromptFor(s)).error)
  {
    match env.llm(PromptFor(s))
    case Success(texto) => s.(resposta := texto, erro := None)
    case Failure(e) => s.(resposta := ERRO_GERACAO + e, erro := Some(e))
  }

  /** The conversation history is read but never reaches the model. */
  lemma GeradoIgnoresHistory(env: Env, s: AgentState, h: seq<map<string, string>>)
    ensures Gerado(env, s.(historicoConversa := h)) == Gerado(env, s).(historicoConversa := h)
  {
    assert PromptFor(s.(historicoConversa := h)) == PromptFor(s);
  }

  // ----------------------------------------------------------------- decidir

  datatype Decision = ParaRecuperar | ParaGerar | Fim

  /** `state.get("erro")` is truthy: present and not the empty string. */
  predicate ErroSet(s: AgentState)
  {
    s.erro.Some? && s.erro.value != ""
  }

  /** `decidir_proximo_no`. */
  function DecidirProximoNo(s: AgentState): (d: Decision)
    ensures d == Fim <==> ErroSet(s)
    ensures d == ParaGerar <==> !ErroSet(s) && !s.precisaRecuperacao
    ensures d == ParaRecuperar <==> !ErroSet(s) && s.precisaRecuperacao
  {
    if ErroSet(s) then Fim
    else if !s.precisaRecuperacao then ParaGerar
    else ParaRecuperar
  }
}
