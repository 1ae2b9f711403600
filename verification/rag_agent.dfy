/**
 * The high-level interface of project/src/llm_rag/agent.py: the document
 * manager that indexes, deletes and counts documents through the vector
 * store, and the agent that turns a query into an initial state, runs the
 * answer graph and shapes the result.
 */
module RagAgent {
  import opened Common
  import opened RagRecords
  import opened RagNodes
  import opened RagWorkflow
  import opened PdfProcessor
  import opened Store

  // ------------------------------------------------------------ indexing

  /** The dictionary `indexar_pdf` returns. */
  datatype Indexacao = Indexacao(documentoId: string, documentoNome: string, totalPaginas: nat,
                                 tamanhoMb: real, numChunks: nat, sucesso: bool)

  const MUITO_GRANDE: string := "Arquivo muito grande: "
  const MAXIMO: string := "MB. M\U{E1}ximo permitido: "

  /** The size error; `fmt` stands for the formatting of a float in an f-string. */
  function TooBig(tamanhoMb: real, limiteMb: real, fmt: real -> string): Error
  {
    ValueError(MUITO_GRANDE + fmt(tamanhoMb) + MAXIMO + fmt(limiteMb) + "MB")
  }

  /**
   * What `indexar_pdf` decides before it touches the store: the file's
   * information and the chunks to add, or the error it raises.  The checks
   * run in the source's order: existence, reading the information, the size
   * limit, then chunking.
   */
  function Plano(path: string, documentoId: Option<string>, fs: FileSystem, limiteMb: real,
                 round2: real -> real, fmt: real -> string,
                 split: string -> seq<string>, md5: string -> string): (r: Result<(InfoPdf, seq<Chunk>), Error>)
    ensures path !in fs ==> r == Failure(FileNotFoundError(NOT_FOUND + path))
    ensures ObterInfoPdf(path, fs, round2).Success? && ObterInfoPdf(path, fs, round2).value.tamanhoMb > limiteMb ==>
              r == Failure(TooBig(ObterInfoPdf(path, fs, round2).value.tamanhoMb, limiteMb, fmt))
    ensures r.Success? ==> ObterInfoPdf(path, fs, round2) == Success(r.value.0)
                           && r.value.0.tamanhoMb <= limiteMb
                           && Processed(path, documentoId, fs, split, md5) == Success(r.value.1)
  {
    if path !in fs then Failure(FileNotFoundError(NOT_FOUND + path))
    else match ObterInfoPdf(path, fs, round2)
      case Failure(e) => Failure(e)
      case Success(info) =>
        if info.tamanhoMb > limiteMb then Failure(TooBig(info.tamanhoMb, limiteMb, fmt))
        else match Processed(path, documentoId, fs, split, md5)
          case Failure(e) => Failure(e)
          case Success(chunks) => Success((info, chunks))
  }

  /** `documento_id or caminho_pdf.stem`: an absent or empty id reports the stem. */
  function IdRelatado(path: string, documentoId: Option<string>): string
  {
    if documentoId.Some? && documentoId.value != "" then documentoId.value else Stem(PathName(path))
  }

  /**
   * The id `indexar_pdf` reports is the id its chunks carry, unless the
   * caller passes the empty string: `processar_pdf` replaces only a missing
   * id by the stem, so the chunks carry `""`, none of them is ever listed,
   * and the id reported (the stem) matches none of them.
   */
  lemma ReportedIdMatchesChunks(path: string, documentoId: Option<string>, fs: FileSystem, limiteMb: real,
                                round2: real -> real, fmt: real -> string,
                                split: string -> seq<string>, md5: string -> string)
    requires Plano(path, documentoId, fs, limiteMb, round2, fmt, split, md5).Success?
    ensures documentoId != Some("") ==>
              forall c :: c in Plano(path, documentoId, fs, limiteMb, round2, fmt, split, md5).value.1 ==>
                c.metadata.documentoId == Some(IdRelatado(path, documentoId))
    ensures documentoId == Some("") ==>
              IdRelatado(path, documentoId) == Stem(PathName(path))
              && IdsOf(MetadatasOf(EntriesOf(Plano(path, documentoId, fs, limiteMb, round2, fmt, split, md5).value.1))) == []
  {
    var chunks := Plano(path, documentoId, fs, limiteMb, round2, fmt, split, md5).value.1;
    if documentoId == Some("") {
      NoIdsWhenEmpty(MetadatasOf(EntriesOf(chunks)));
    }
  }

  lemma {:induction false} NoIdsWhenEmpty(metas: seq<Metadata>)
    requires forall k :: 0 <= k < |metas| ==> metas[k].documentoId == Some("")
    ensures IdsOf(metas) == []
    decreases |metas|
  {
    if metas != [] {
      NoIdsWhenEmpty(metas[..|metas| - 1]);
    }
  }

  // ------------------------------------------------------------ deletion

  /** The dictionary `deletar_documento` returns. */
  datatype Delecao = Delecao(documentoId: string, chunksDeletados: nat, sucesso: bool)

  function DelecaoDe(documentoId: string, entries: seq<Entry>): Delecao
  {
    var n := |Matching(entries, documentoId)|;
    Delecao(documentoId, n, n > 0)
  }

  /** A deletion succeeds exactly when the collection held a chunk of that document. */
  lemma DeletionSucceedsIffPresent(documentoId: string, entries: seq<Entry>)
    ensures DelecaoDe(documentoId, entries).sucesso <==> exists e :: e in entries && OfDocument(e, documentoId)
    ensures DelecaoDe(documentoId, entries).chunksDeletados
            == |entries| - |Remaining(entries, documentoId)|
  {
    DeletionPartition(entries, documentoId);
    var m := Matching(entries, documentoId);
    if m != [] {
      assert m[0] in m;
    }
  }

  // ---------------------------------------------------------- statistics

  /** The dictionary `obter_estatisticas` returns. */
  datatype Estatisticas = Estatisticas(totalDocumentos: nat, totalChunks: nat, documentos: seq<DocInfo>)

  function EstatisticasDe(entries: seq<Entry>): Estatisticas
  {
    var l := Listed(MetadatasOf(entries));
    Estatisticas(|l|, |entries|, l)
  }

  /** There are never more documents than chunks, and no documents when there are no chunks. */
  lemma StatisticsBounded(entries: seq<Entry>)
    ensures EstatisticasDe(entries).totalDocumentos <= EstatisticasDe(entries).totalChunks
    ensures EstatisticasDe(entries).totalChunks == 0 ==> EstatisticasDe(entries).documentos == []
  {
    var ids := IdsOf(MetadatasOf(entries));
    Seqs.DedupLength(ids);
  }

  // ------------------------------------------------------------- manager

  /** `DocumentManager`: the store it works through; the upload directory is not part of this model. */
  class DocumentManager {
    var store: VectorStore

    predicate Valid()
      reads this, store
    {
      store.Valid() && store.collection.Some?
    }

    /** `DocumentManager.__init__`: selects the configured collection, creating it if need be. */
    constructor (store: VectorStore, colecao: string)
      requires store.Valid()
      modifies store
      ensures Valid() && this.store == store && store.collection == Some(colecao)
      ensures colecao in old(store.colecoes) ==> store.colecoes == old(store.colecoes)
      ensures colecao !in old(store.colecoes) ==> store.colecoes == old(store.colecoes)[colecao := []]
    {
      this.store := store;
      new;
      var _ := store.CriarColecao(None, colecao);
    }

    /** `indexar_pdf`: the store grows by the planned chunks, or stays as it was when a check fails. */
    method IndexarPdf(path: string, documentoId: Option<string>, fs: FileSystem, limiteMb: real,
                      round2: real -> real, fmt: real -> string,
                      split: string -> seq<string>, md5: string -> string)
      returns (r: Result<Indexacao, Error>)
      requires Valid()
      modifies store
      ensures Valid() && store.collection == old(store.collection)
      ensures var p := Plano(path, documentoId, fs, limiteMb, round2, fmt, split, md5);
              && (p.Failure? ==> r == Failure(p.error) && store.colecoes == old(store.colecoes))
              && (p.Success? ==>
                    r == Success(Indexacao(IdRelatado(path, documentoId), PathName(path), p.value.0.totalPaginas,
                                           p.value.0.tamanhoMb, |p.value.1|, true))
                    && store.colecoes == old(store.colecoes)[store.collection.value :=
                                                             old(store.Entries()) + EntriesOf(p.value.1)])
    {
      if path !in fs {
        return Failure(FileNotFoundError(NOT_FOUND + path));
      }
      var info := ObterInfoPdf(path, fs, round2);
      if info.Failure? {
        return Failure(info.error);
      }
      if info.value.tamanhoMb > limiteMb {
        return Failure(TooBig(info.value.tamanhoMb, limiteMb, fmt));
      }
      var chunks := ProcessarPdf(path, documentoId, fs, split, md5);
      if chunks.Failure? {
        return Failure(chunks.error);
      }
      var n := store.AdicionarDocumentos(chunks.value);
      return Success(Indexacao(IdRelatado(path, documentoId), PathName(path), info.value.totalPaginas,
                               info.value.tamanhoMb, n.value, true));
    }

    /** `deletar_documento`: reports the count, and success exactly when something was deleted. */
    method DeletarDocumento(documentoId: string) returns (r: Delecao)
      requires Valid()
      modifies store
      ensures Valid() && store.collection == old(store.collection)
      ensures r == DelecaoDe(documentoId, old(store.Entries()))
      ensures store.colecoes == old(store.colecoes)[store.collection.value := Remaining(old(store.Entries()), documentoId)]
    {
      var n := store.DeletarDocumento(documentoId);
      return Delecao(documentoId, n.value, n.value > 0);
    }

    /** `limpar_todos_documentos`. */
    method LimparTodosDocumentos()
      requires Valid()
      modifies store
      ensures Valid() && store.collection == old(store.collection)
      ensures store.colecoes == old(store.colecoes)[store.collection.value := []]
    {
      var _ := store.LimparColecao();
    }

    /** `obter_estatisticas`: the listing, its length and the chunk count. */
    method ObterEstatisticas() returns (r: Estatisticas)
      requires Valid()
      ensures r == EstatisticasDe(store.Entries())
    {
      var documentos := store.ListarDocumentos();
      var total := store.ContarDocumentos();
      return Estatisticas(|documentos.value|, total.value, documentos.value);
    }
  }

  // --------------------------------------------------------------- agent

  /** The dictionary `processar_consulta` returns. */
  datatype Resposta = Resposta(resposta: string, fontes: seq<Fonte>, numDocumentosUsados: nat, erro: Option<string>)

  /** The state `processar_consulta` starts the graph with; a missing history is the empty one. */
  function EstadoInicial(consulta: string, historico: Option<seq<map<string, string>>>): (s: AgentState)
    ensures s.consulta == consulta && s.precisaRecuperacao && s.erro == None && !ErroSet(s)
    ensures s.documentosRecuperados == [] && s.fontes == [] && s.contexto == "" && s.resposta == ""
    ensures s.historicoConversa == (if historico.None? then [] else historico.value)
  {
    AgentState(consulta, if historico.None? then [] else historico.value, [], "", "", [], true, None)
  }

  /** `RAGAgent.processar_consulta`: the projection of the final state. */
  function ProcessarConsulta(env: Env, consulta: string, historico: Option<seq<map<string, string>>>): Resposta
  {
    var f := Invoke(env, EstadoInicial(consulta, historico)).final;
    Resposta(f.resposta, f.fontes, |f.documentosRecuperados|, f.erro)
  }

  /**
   * A query never stops after `analisar` (its initial state carries no error),
   * the error it reports, if any, is the generation error, and its answer
   * then is the apology.
   */
  lemma QueryErrorIsGenerationError(env: Env, consulta: string, historico: Option<seq<map<string, string>>>)
    ensures |Invoke(env, EstadoInicial(consulta, historico)).trace| >= 2
    ensures ProcessarConsulta(env, consulta, historico).erro.Some? ==>
              ProcessarConsulta(env, consulta, historico).resposta
              == ERRO_GERACAO + ProcessarConsulta(env, consulta, historico).erro.value
  {
    var s := EstadoInicial(consulta, historico);
    FinalErrorIsGenerationError(env, s);
    InvokeCases(env, s);
  }

  /** A greeting or a very short query is answered from no documents and cites no sources. */
  lemma GreetingUsesNoDocuments(env: Env, consulta: string, historico: Option<seq<map<string, string>>>)
    requires !NeedsRetrieval(consulta)
    ensures ProcessarConsulta(env, consulta, historico).numDocumentosUsados == 0
    ensures ProcessarConsulta(env, consulta, historico).fontes == []
  {
    GreetingAnsweredWithoutContext(env, EstadoInicial(consulta, historico));
  }

  /**
   * On a query that needs retrieval, the documents used are exactly those the
   * search returned (none when it failed), and the sources are their
   * de-duplicated projections.
   */
  lemma RetrievalQueryUsesSearchResult(env: Env, consulta: string, historico: Option<seq<map<string, string>>>)
    requires NeedsRetrieval(consulta)
    ensures env.buscar(consulta).Success? ==>
              ProcessarConsulta(env, consulta, historico).numDocumentosUsados == |env.buscar(consulta).value|
              && ProcessarConsulta(env, consulta, historico).fontes == FontesOf(env.buscar(consulta).value)
    ensures env.buscar(consulta).Failure? ==>
              ProcessarConsulta(env, consulta, historico).numDocumentosUsados == 0
              && ProcessarConsulta(env, consulta, historico).fontes == []
  {
    FullPathFinal(env, EstadoInicial(consulta, historico));
  }
}
