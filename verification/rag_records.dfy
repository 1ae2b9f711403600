/**
 * The records the retrieval-augmented answer pipeline passes around:
 * chunk metadata as stored in the vector collection, a retrieved document,
 * a source reference, and the `AgentState` record of
 * project/src/llm_rag/graph/state.py.
 *
 * Python dictionaries with optional keys become datatypes with `Option`
 * fields: `None` stands for a key the dictionary does not have, so that
 * `d.get(k)` and `d.get(k, default)` can be told apart.
 */
module RagRecords {
  import opened Common

  /** The metadata dictionary `processar_pdf` attaches to every chunk. */
  datatype Metadata = Metadata(
    documentoId: Option<string>,
    documentoNome: Option<string>,
    numeroPagina: Option<int>,
    totalPaginas: Option<int>,
    chunkIndex: Option<int>,
    caminhoArquivo: Option<string>)

  /** A search result of `buscar_documentos`. */
  datatype Document = Document(texto: string, metadata: Metadata, score: Option<real>, distancia: Option<real>)

  /** One entry of `fontes`: the projection of a retrieved document. */
  datatype Fonte = Fonte(documentoNome: Option<string>, numeroPagina: Option<int>, score: Option<real>)

  /** `AgentState`; the history entries are `Dict[str, str]`. */
  datatype AgentState = AgentState(
    consulta: string,
    historicoConversa: seq<map<string, string>>,
    documentosRecuperados: seq<Document>,
    contexto: string,
    resposta: string,
    fontes: seq<Fonte>,
    precisaRecuperacao: bool,
    erro: Option<string>)
}
