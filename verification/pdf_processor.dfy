/**
 * Page extraction and chunking of project/src/llm_rag/pdf_processor.py.
 *
 * The file system is a map from path to file; a file's pages are what the
 * PDF library reads from it, or the error it raises.  The text splitter and
 * md5 are not part of this model and are passed in as functions.
 */
module PdfProcessor {
  import opened Common
  import opened Text
  import opened RagRecords
  import opened Seqs

  /** `DocumentChunk`. */
  datatype Chunk = Chunk(texto: string, metadata: Metadata, chunkId: string)

  /** The values `to_dict` stores: strings and the metadata dictionary. */
  datatype Value = Str(s: string) | Meta(m: Metadata)

  /** `DocumentChunk.to_dict`. */
  function ToDict(c: Chunk): (d: map<string, Value>)
    ensures d.Keys == {"texto", "metadata", "chunk_id"}
  {
    map["texto" := Str(c.texto), "metadata" := Meta(c.metadata), "chunk_id" := Str(c.chunkId)]
  }

  /** Reads a chunk back from its dictionary; `None` for a dictionary of another shape. */
  function FromDict(d: map<string, Value>): Option<Chunk>
  {
    if "texto" in d && "metadata" in d && "chunk_id" in d
       && d["texto"].Str? && d["metadata"].Meta? && d["chunk_id"].Str?
    then Some(Chunk(d["texto"].s, d["metadata"].m, d["chunk_id"].s))
    else None
  }

  /** `to_dict` keeps text, metadata and id unchanged: reading the dictionary back gives the chunk. */
  lemma ToDictRoundTrip(c: Chunk)
    ensures FromDict(ToDict(c)) == Some(c)
  {
  }

  // ------------------------------------------------------------------ paths

  /** The index of the last `c` in `s` (`str.rfind`), or -1. */
  function RFind(s: string, c: char): (i: int)
    ensures -1 <= i < |s|
    ensures 0 <= i ==> s[i] == c
    ensures forall k :: i < k < |s| ==> s[k] != c
  {
    if s == [] then -1
    else if s[|s| - 1] == c then |s| - 1
    else RFind(s[..|s| - 1], c)
  }

  /** `Path.name`: what follows the last `/`. */
  function PathName(p: string): (n: string)
    ensures '/' !in n
    ensures |n| <= |p| && n == p[|p| - |n|..]
  {
    p[RFind(p, '/') + 1..]
  }

  predicate HasSuffix(name: string)
  {
    var i := RFind(name, '.');
    0 < i < |name| - 1
  }

  /** `Path.suffix`: from the last dot, unless the name starts or ends there. */
  function Suffix(name: string): (r: string)
    ensures r == [] || r[0] == '.'
  {
    if HasSuffix(name) then name[RFind(name, '.')..] else ""
  }

  /** `Path.stem`. */
  function Stem(name: string): (r: string)
  {
    if HasSuffix(name) then name[..RFind(name, '.')] else name
  }

  /** A file name is its stem followed by its suffix, and the stem never ends a dotted name early. */
  lemma StemSuffix(name: string)
    ensures Stem(name) + Suffix(name) == name
    ensures Suffix(name) != [] ==> '.' !in Suffix(name)[1..] && Stem(name) != []
  {
    if HasSuffix(name) {
      var i := RFind(name, '.');
      assert name[..i] + name[i..] == name;
      assert forall k :: 0 <= k < |name[i..]| - 1 ==> name[i..][1..][k] == name[i + 1 + k];
    }
  }

  // ------------------------------------------------------------ extraction

  /**
   * A file as the PDF library sees it: its size, and either the error
   * opening it raises or its pages, each one the text reading it gives or
   * the error reading it raises.
   */
  datatype PdfFile = PdfFile(sizeBytes: nat, document: Result<seq<Result<string, string>>, string>)

  type FileSystem = map<string, PdfFile>

  datatype Error = FileNotFoundError(message: string) | ValueError(message: string) | OpenError(message: string)

  /** One entry of `paginas`. */
  datatype Pagina = Pagina(texto: string, numeroPagina: nat, totalPaginas: nat)

  /** The non-blank pages of `pages`, numbered by their 1-based position. */
  function KeptPages(pages: seq<string>, total: nat): seq<Pagina>
    decreases |pages|
  {
    if pages == [] then []
    else
      var n := |pages| - 1;
      KeptPages(pages[..n], total) + (if Strip(pages[n]) != [] then [Pagina(pages[n], n + 1, total)] else [])
  }

  /** The page that `pages[n]` contributes, if it is not blank. */
  function KeptPage(pages: seq<string>, n: nat, total: nat): seq<Pagina>
    requires n < |pages|
  {
    if Strip(pages[n]) != [] then [Pagina(pages[n], n + 1, total)] else []
  }

  lemma KeptPagesStep(pages: seq<string>, total: nat)
    requires pages != []
    ensures KeptPages(pages, total) == KeptPages(pages[..|pages| - 1], total) + KeptPage(pages, |pages| - 1, total)
  {
  }

  /** `p` is the entry extraction makes for a non-blank page of `pages`. */
  predicate IsPageOf(p: Pagina, pages: seq<string>, total: nat)
  {
    1 <= p.numeroPagina <= |pages| && p.texto == pages[p.numeroPagina - 1]
    && Strip(p.texto) != [] && p.totalPaginas == total
  }

  /** Each kept page is a non-blank page, with its own text and 1-based number and the full page count. */
  lemma {:induction false} KeptPagesSound(pages: seq<string>, total: nat)
    ensures forall p :: p in KeptPages(pages, total) ==> IsPageOf(p, pages, total)
    decreases |pages|
  {
    if pages != [] {
      var n := |pages| - 1;
      var prefix := pages[..n];
      KeptPagesSound(prefix, total);
      KeptPagesStep(pages, total);
      forall p | p in KeptPages(pages, total)
        ensures IsPageOf(p, pages, total)
      {
        SoundStep(pages, prefix, total, p);
      }
    }
  }

  lemma SoundStep(pages: seq<string>, prefix: seq<string>, total: nat, p: Pagina)
    requires pages != [] && prefix == pages[..|pages| - 1]
    requires p in KeptPages(prefix, total) ==> IsPageOf(p, prefix, total)
    requires p in KeptPages(prefix, total) + KeptPage(pages, |pages| - 1, total)
    ensures IsPageOf(p, pages, total)
  {
    var n := |pages| - 1;
    if p in KeptPages(prefix, total) {
      assert prefix[p.numeroPagina - 1] == pages[p.numeroPagina - 1];
    } else {
      assert p == Pagina(pages[n], n + 1, total);
    }
  }

  /** No non-blank page is dropped. */
  lemma {:induction false} KeptPagesComplete(pages: seq<string>, total: nat)
    ensures forall i :: 0 <= i < |pages| && Strip(pages[i]) != [] ==>
              Pagina(pages[i], i + 1, total) in KeptPages(pages, total)
    decreases |pages|
  {
    if pages != [] {
      var n := |pages| - 1;
      var prefix := pages[..n];
      KeptPagesComplete(prefix, total);
      KeptPagesStep(pages, total);
      forall i | 0 <= i < |pages| && Strip(pages[i]) != []
        ensures Pagina(pages[i], i + 1, total) in KeptPages(pages, total)
      {
        if i < n {
          assert prefix[i] == pages[i];
        }
        CompleteStep(pages, prefix, total, i);
      }
    }
  }

  lemma CompleteStep(pages: seq<string>, prefix: seq<string>, total: nat, i: nat)
    requires i < |pages| && Strip(pages[i]) != [] && prefix == pages[..|pages| - 1]
    requires i < |prefix| ==> Pagina(pages[i], i + 1, total) in KeptPages(prefix, total)
    ensures Pagina(pages[i], i + 1, total) in KeptPages(prefix, total) + KeptPage(pages, |pages| - 1, total)
  {
    var n := |pages| - 1;
    var page := Pagina(pages[i], i + 1, total);
    if i < n {
      InConcatLeft(page, KeptPages(prefix, total), KeptPage(pages, n, total));
    } else {
      assert KeptPage(pages, n, total) == [page];
      InConcatRight(page, KeptPages(prefix, total), KeptPage(pages, n, total));
    }
  }

  predicate Increasing(r: seq<Pagina>)
  {
    forall a, b :: 0 <= a < b < |r| ==> r[a].numeroPagina < r[b].numeroPagina
  }

  /** The kept pages are in increasing page order. */
  lemma {:induction false} KeptPagesOrdered(pages: seq<string>, total: nat)
    ensures Increasing(KeptPages(pages, total))
    decreases |pages|
  {
    if pages != [] {
      var n := |pages| - 1;
      var k := KeptPages(pages[..n], total);
      var last := KeptPage(pages, n, total);
      KeptPagesOrdered(pages[..n], total);
      KeptPagesSound(pages[..n], total);
      assert forall q :: q in k ==> q.numeroPagina <= n by {
        forall q | q in k ensures q.numeroPagina <= n {
          assert IsPageOf(q, pages[..n], total);
        }
      }
      KeptPagesStep(pages, total);
      IncreasingAppend(k, last, n);
    }
  }

  lemma IncreasingAppend(k: seq<Pagina>, last: seq<Pagina>, n: nat)
    requires Increasing(k) && forall q :: q in k ==> q.numeroPagina <= n
    requires |last| <= 1 && forall q :: q in last ==> q.numeroPagina == n + 1
    ensures Increasing(k + last)
  {
    var r := k + last;
    forall a, b | 0 <= a < b < |r|
      ensures r[a].numeroPagina < r[b].numeroPagina
    {
      if b < |k| {
        assert r[a] == k[a] && r[b] == k[b];
      } else {
        assert r[a] == k[a] && k[a] in k;
        assert r[b] == last[0] && last[0] in last;
      }
    }
  }

  const NOT_FOUND: string := "Arquivo n\U{E3}o encontrado: "
  const NOT_A_PDF: string := "Arquivo n\U{E3}o \U{E9} um PDF: "
  const BAD_PDF: string := "Erro ao processar PDF: "

  /** The texts of the pages read in order: all of them, or the error of the first page that cannot be read. */
  function ReadPages(pages: seq<Result<string, string>>): Result<seq<string>, string>
    decreases |pages|
  {
    if pages == [] then Success([])
    else
      var n := |pages| - 1;
      match ReadPages(pages[..n])
      case Failure(e) => Failure(e)
      case Success(texts) =>
        if pages[n].Failure? then Failure(pages[n].error) else Success(texts + [pages[n].value])
  }

  /**
   * Reading succeeds iff every page can be read, and then gives each page's
   * text in order; otherwise it gives the error of the first unreadable page.
   */
  lemma {:induction false} ReadPagesSpec(pages: seq<Result<string, string>>)
    ensures ReadPages(pages).Success? <==> forall k :: 0 <= k < |pages| ==> pages[k].Success?
    ensures ReadPages(pages).Success? ==>
              |ReadPages(pages).value| == |pages|
              && forall k :: 0 <= k < |pages| ==> ReadPages(pages).value[k] == pages[k].value
    ensures ReadPages(pages).Failure? ==>
              exists j :: 0 <= j < |pages| && pages[j].Failure?
                          && (forall k :: 0 <= k < j ==> pages[k].Success?)
                          && ReadPages(pages).error == pages[j].error
    decreases |pages|
  {
    if pages != [] {
      var n := |pages| - 1;
      ReadPagesSpec(pages[..n]);
      assert forall k :: 0 <= k < n ==> pages[..n][k] == pages[k];
      if ReadPages(pages[..n]).Failure? {
        var j :| 0 <= j < n && pages[..n][j].Failure?
                 && (forall k :: 0 <= k < j ==> pages[..n][k].Success?)
                 && ReadPages(pages[..n]).error == pages[..n][j].error;
        assert pages[j].Failure?;
      } else if pages[n].Failure? {
        assert forall k :: 0 <= k < n ==> pages[k].Success?;
      }
    }
  }

  lemma ReadPagesStep(pages: seq<Result<string, string>>, i: nat, texts: seq<string>)
    requires i < |pages| && ReadPages(pages[..i]) == Success(texts)
    ensures pages[i].Failure? ==> ReadPages(pages[..i + 1]) == Failure(pages[i].error)
    ensures pages[i].Success? ==> ReadPages(pages[..i + 1]) == Success(texts + [pages[i].value])
  {
    assert pages[..i + 1][..i] == pages[..i];
  }

  lemma KeptPagesSnoc(texts: seq<string>, texto: string, total: nat)
    ensures KeptPages(texts + [texto], total)
            == KeptPages(texts, total) + (if Strip(texto) != [] then [Pagina(texto, |texts| + 1, total)] else [])
  {
    assert (texts + [texto])[..|texts|] == texts;
  }

  /** A failure in the pages read so far is the failure of reading them all. */
  lemma {:induction false} ReadPagesPrefixFailure(pages: seq<Result<string, string>>, i: nat)
    requires i <= |pages| && ReadPages(pages[..i]).Failure?
    ensures ReadPages(pages) == ReadPages(pages[..i])
    decreases |pages| - i
  {
    if i < |pages| {
      assert pages[..i + 1][..i] == pages[..i];
      ReadPagesPrefixFailure(pages, i + 1);
    } else {
      assert pages[..i] == pages;
    }
  }

  /** The outcome `extrair_texto_pdf` specifies. */
  function Extracted(path: string, fs: FileSystem): (r: Result<seq<Pagina>, Error>)
    ensures path !in fs <==> r == Failure(FileNotFoundError(NOT_FOUND + path))
    ensures path in fs && Lower(Suffix(PathName(path))) != ".pdf" ==> r == Failure(ValueError(NOT_A_PDF + path))
    ensures path in fs && Lower(Suffix(PathName(path))) == ".pdf" && fs[path].document.Failure? ==>
              r == Failure(ValueError(BAD_PDF + fs[path].document.error))
    ensures r.Success? <==> path in fs && Lower(Suffix(PathName(path))) == ".pdf" && fs[path].document.Success?
                            && forall k :: 0 <= k < |fs[path].document.value| ==> fs[path].document.value[k].Success?
  {
    if path !in fs then Failure(FileNotFoundError(NOT_FOUND + path))
    else if Lower(Suffix(PathName(path))) != ".pdf" then Failure(ValueError(NOT_A_PDF + path))
    else match fs[path].document
      case Failure(e) => Failure(ValueError(BAD_PDF + e))
      case Success(pages) =>
        ReadPagesSpec(pages);
        match ReadPages(pages)
        case Failure(e) => Failure(ValueError(BAD_PDF + e))
        case Success(texts) => Success(KeptPages(texts, |pages|))
  }

  /** `PDFProcessor.extrair_texto_pdf`: the page loop. */
  method ExtrairTextoPdf(path: string, fs: FileSystem) returns (r: Result<seq<Pagina>, Error>)
    ensures r == Extracted(path, fs)
  {
    if path !in fs {
      return Failure(FileNotFoundError(NOT_FOUND + path));
    }
    if Lower(Suffix(PathName(path))) != ".pdf" {
      return Failure(ValueError(NOT_A_PDF + path));
    }
    match fs[path].document {
      case Failure(e) =>
        return Failure(ValueError(BAD_PDF + e));
      case Success(pages) =>
        var paginas: seq<Pagina> := [];
        ghost var texts: seq<string> := [];
        for i := 0 to |pages|
          invariant ReadPages(pages[..i]) == Success(texts) && |texts| == i
          invariant paginas == KeptPages(texts, |pages|)
        {
          ReadPagesStep(pages, i, texts);
          if pages[i].Failure? {
            ReadPagesPrefixFailure(pages, i + 1);
            return Failure(ValueError(BAD_PDF + pages[i].error));
          }
          var texto := pages[i].value;
          KeptPagesSnoc(texts, texto, |pages|);
          if Strip(texto) != [] {
            paginas := paginas + [Pagina(texto, i + 1, |pages|)];
          }
          texts := texts + [texto];
        }
        assert pages[..|pages|] == pages;
        return Success(paginas);
    }
  }

  /** The size unit of `tamanho_mb`. */
  const BYTES_PER_MB: nat := 1024 * 1024

  /** The dictionary `obter_info_pdf` returns, without the library's own metadata entry. */
  datatype InfoPdf = InfoPdf(nome: string, totalPaginas: nat, tamanhoBytes: nat, tamanhoMb: real)

  /**
   * `PDFProcessor.obter_info_pdf`.  It checks only that the file exists and
   * opens it; an error opening it is not caught, and the pages' text is never
   * read.  `round2` stands for `round(x, 2)`.
   */
  function ObterInfoPdf(path: string, fs: FileSystem, round2: real -> real): (r: Result<InfoPdf, Error>)
    ensures path !in fs <==> r == Failure(FileNotFoundError(NOT_FOUND + path))
    ensures path in fs ==> (r.Success? <==> fs[path].document.Success?)
    ensures path in fs && fs[path].document.Failure? ==> r == Failure(OpenError(fs[path].document.error))
    ensures r.Success? ==> r.value.nome == PathName(path) && r.value.tamanhoBytes == fs[path].sizeBytes
                           && r.value.totalPaginas == |fs[path].document.value|
  {
    if path !in fs then Failure(FileNotFoundError(NOT_FOUND + path))
    else match fs[path].document
      case Failure(e) => Failure(OpenError(e))
      case Success(pages) =>
        var size := fs[path].sizeBytes;
        Success(InfoPdf(PathName(path), |pages|, size, round2(size as real / BYTES_PER_MB as real)))
  }

  /**
   * A file whose pages can be extracted also has its information read, and
   * the page count reported agrees with the one every extracted page carries.
   */
  lemma InfoAgreesWithPages(path: string, fs: FileSystem, round2: real -> real)
    requires Extracted(path, fs).Success?
    ensures ObterInfoPdf(path, fs, round2).Success?
    ensures forall p :: p in Extracted(path, fs).value ==>
              p.totalPaginas == ObterInfoPdf(path, fs, round2).value.totalPaginas
              && 1 <= p.numeroPagina <= p.totalPaginas
  {
    var pages := fs[path].document.value;
    ReadPagesSpec(pages);
    var texts := ReadPages(pages).value;
    KeptPagesSound(texts, |pages|);
  }

  /**
   * A PDF that opens but has a page whose text cannot be read still has its
   * information read, while extracting its text fails with `ValueError`.
   */
  lemma InfoWithoutText(path: string, fs: FileSystem, round2: real -> real, j: nat)
    requires path in fs && Lower(Suffix(PathName(path))) == ".pdf" && fs[path].document.Success?
    requires j < |fs[path].document.value| && fs[path].document.value[j].Failure?
    ensures ObterInfoPdf(path, fs, round2).Success?
    ensures Extracted(path, fs).Failure? && Extracted(path, fs).error.ValueError?
  {
    ReadPagesSpec(fs[path].document.value);
  }

  // ------------------------------------------------------------- chunk ids

  /** The string `_gerar_chunk_id` hashes. */
  function ChunkIdContent(texto: string, nome: string, indice: int): string
  {
    nome + "_" + IntToString(indice) + "_" + Head(texto, 100)
  }

  function GerarChunkId(md5: string -> string, texto: string, nome: string, indice: int): string
  {
    md5(ChunkIdContent(texto, nome, indice))
  }

  /** Only the first 100 characters of the text count: texts that agree on them share an id. */
  lemma ChunkIdSeesOnlyPrefix(md5: string -> string, t1: string, t2: string, nome: string, indice: int)
    requires Head(t1, 100) == Head(t2, 100)
    ensures GerarChunkId(md5, t1, nome, indice) == GerarChunkId(md5, t2, nome, indice)
  {
  }

  /**
   * For one document and index, different leading text gives a different
   * hashed string, so an injective hash gives different ids.
   */
  lemma ChunkIdContentSeparates(t1: string, t2: string, nome: string, indice: int)
    requires Head(t1, 100) != Head(t2, 100)
    ensures ChunkIdContent(t1, nome, indice) != ChunkIdContent(t2, nome, indice)
  {
    var pre := nome + "_" + IntToString(indice) + "_";
    assert ChunkIdContent(t1, nome, indice) == pre + Head(t1, 100);
    assert ChunkIdContent(t2, nome, indice) == pre + Head(t2, 100);
    assert (pre + Head(t1, 100))[|pre|..] == Head(t1, 100);
    assert (pre + Head(t2, 100))[|pre|..] == Head(t2, 100);
  }

  // -------------------------------------------------------------- chunking

  /** A piece of page text produced by the splitter, with the page it came from. */
  datatype Piece = Piece(texto: string, pagina: Pagina)

  function PagePieces(p: Pagina, split: string -> seq<string>): seq<Piece>
  {
    seq(|split(p.texto)|, k requires 0 <= k < |split(p.texto)| => Piece(split(p.texto)[k], p))
  }

  /** The splitter's output over all pages, in page order. */
  function Pieces(paginas: seq<Pagina>, split: string -> seq<string>): seq<Piece>
    decreases |paginas|
  {
    if paginas == [] then []
    else Pieces(paginas[..|paginas| - 1], split) + PagePieces(paginas[|paginas| - 1], split)
  }

  function SplitCount(paginas: seq<Pagina>, split: string -> seq<string>): nat
    decreases |paginas|
  {
    if paginas == [] then 0
    else SplitCount(paginas[..|paginas| - 1], split) + |split(paginas[|paginas| - 1].texto)|
  }

  /** The `k`-th chunk of a document: its metadata records the document, the page and `chunk_index = k`. */
  function ChunkAt(pc: Piece, k: nat, id: string, path: string, md5: string -> string): Chunk
  {
    Chunk(pc.texto,
          Metadata(Some(id), Some(PathName(path)), Some(pc.pagina.numeroPagina as int),
                   Some(pc.pagina.totalPaginas as int), Some(k as int), Some(path)),
          GerarChunkId(md5, pc.texto, id, k))
  }

  function ChunksOf(pcs: seq<Piece>, id: string, path: string, md5: string -> string): seq<Chunk>
  {
    seq(|pcs|, k requires 0 <= k < |pcs| => ChunkAt(pcs[k], k, id, path, md5))
  }

  /** One chunk per splitter piece, over all pages. */
  lemma {:induction false} PiecesCount(paginas: seq<Pagina>, split: string -> seq<string>)
    ensures |Pieces(paginas, split)| == SplitCount(paginas, split)
    decreases |paginas|
  {
    if paginas != [] {
      PiecesCount(paginas[..|paginas| - 1], split);
    }
  }

  /** Chunks follow page order: a later chunk never comes from an earlier page. */
  lemma {:induction false} PiecesPageOrder(paginas: seq<Pagina>, split: string -> seq<string>)
    requires forall a, b :: 0 <= a < b < |paginas| ==> paginas[a].numeroPagina < paginas[b].numeroPagina
    ensures forall i, j :: 0 <= i < j < |Pieces(paginas, split)| ==>
              Pieces(paginas, split)[i].pagina.numeroPagina <= Pieces(paginas, split)[j].pagina.numeroPagina
    ensures forall i :: 0 <= i < |Pieces(paginas, split)| ==> Pieces(paginas, split)[i].pagina in paginas
    decreases |paginas|
  {
    if paginas != [] {
      var n := |paginas| - 1;
      var prefix := paginas[..n];
      PiecesPageOrder(prefix, split);
      var a := Pieces(prefix, split);
      var b := PagePieces(paginas[n], split);
      assert Pieces(paginas, split) == a + b;
      forall i | 0 <= i < |a| ensures a[i].pagina.numeroPagina < paginas[n].numeroPagina {
        var m :| 0 <= m < |prefix| && prefix[m] == a[i].pagina;
        assert paginas[m] == prefix[m];
      }
      forall i | 0 <= i < |a| ensures a[i].pagina in paginas {
        var m :| 0 <= m < |prefix| && prefix[m] == a[i].pagina;
        assert paginas[m] == prefix[m];
      }
    }
  }

  /**
   * Every chunk of one call names the same document and file, records its own
   * position as `chunk_index`, and is numbered consecutively from 0.
   */
  lemma ChunksOfMetadata(pcs: seq<Piece>, id: string, path: string, md5: string -> string)
    ensures |ChunksOf(pcs, id, path, md5)| == |pcs|
    ensures forall k :: 0 <= k < |pcs| ==>
              var c := ChunksOf(pcs, id, path, md5)[k];
              c.texto == pcs[k].texto && c.metadata.chunkIndex == Some(k)
              && c.metadata.documentoId == Some(id) && c.metadata.documentoNome == Some(PathName(path))
              && c.metadata.numeroPagina == Some(pcs[k].pagina.numeroPagina as int)
  {
  }

  /** The outcome `processar_pdf` specifies; the document id defaults to the file stem. */
  function Processed(path: string, documentoId: Option<string>, fs: FileSystem,
                     split: string -> seq<string>, md5: string -> string): (r: Result<seq<Chunk>, Error>)
    ensures Extracted(path, fs).Failure? ==> r == Failure(Extracted(path, fs).error)
    ensures r.Success? ==> forall c :: c in r.value ==>
              c.metadata.documentoId == Some(if documentoId.Some? then documentoId.value else Stem(PathName(path)))
  {
    match Extracted(path, fs)
    case Failure(e) => Failure(e)
    case Success(paginas) =>
      var id := if documentoId.Some? then documentoId.value else Stem(PathName(path));
      Success(ChunksOf(Pieces(paginas, split), id, path, md5))
  }

  lemma ChunksOfSnoc(pcs: seq<Piece>, pc: Piece, id: string, path: string, md5: string -> string)
    ensures ChunksOf(pcs + [pc], id, path, md5) == ChunksOf(pcs, id, path, md5) + [ChunkAt(pc, |pcs|, id, path, md5)]
  {
    var l := ChunksOf(pcs + [pc], id, path, md5);
    var r := ChunksOf(pcs, id, path, md5) + [ChunkAt(pc, |pcs|, id, path, md5)];
    assert |l| == |r|;
    forall k | 0 <= k < |l| ensures l[k] == r[k] {
      if k < |pcs| {
        assert (pcs + [pc])[k] == pcs[k];
      }
    }
  }

  lemma PiecesSnoc(paginas: seq<Pagina>, i: nat, split: string -> seq<string>)
    requires i < |paginas|
    ensures Pieces(paginas[..i + 1], split) == Pieces(paginas[..i], split) + PagePieces(paginas[i], split)
  {
    assert paginas[..i + 1][..i] == paginas[..i];
  }

  /** The inner loop of `processar_pdf`: one page's splitter output appended with running indices. */
  method AppendPageChunks(chunks: seq<Chunk>, ghost done: seq<Piece>, pagina: Pagina, id: string, path: string,
                          split: string -> seq<string>, md5: string -> string)
    returns (out: seq<Chunk>)
    requires chunks == ChunksOf(done, id, path, md5)
    ensures out == ChunksOf(done + PagePieces(pagina, split), id, path, md5)
  {
    var textoChunks := split(pagina.texto);
    ghost var page := PagePieces(pagina, split);
    out := chunks;
    var chunkIndex := |chunks|;
    for j := 0 to |textoChunks|
      invariant chunkIndex == |out| == |done| + j
      invariant out == ChunksOf(done + page[..j], id, path, md5)
    {
      var pc := Piece(textoChunks[j], pagina);
      assert page[..j + 1] == page[..j] + [pc];
      assert done + page[..j + 1] == (done + page[..j]) + [pc];
      ChunksOfSnoc(done + page[..j], pc, id, path, md5);
      out := out + [ChunkAt(pc, chunkIndex, id, path, md5)];
      chunkIndex := chunkIndex + 1;
    }
    assert page[..|textoChunks|] == page;
  }

  /** `PDFProcessor.processar_pdf`: the page loop, the splitter loop and the running `chunk_index`. */
  method ProcessarPdf(path: string, documentoId: Option<string>, fs: FileSystem,
                      split: string -> seq<string>, md5: string -> string)
    returns (r: Result<seq<Chunk>, Error>)
    ensures r == Processed(path, documentoId, fs, split, md5)
  {
    var extracted := ExtrairTextoPdf(path, fs);
    if extracted.Failure? {
      return Failure(extracted.error);
    }
    var paginas := extracted.value;
    var id := if documentoId.None? then Stem(PathName(path)) else documentoId.value;
    var chunks: seq<Chunk> := [];
    for i := 0 to |paginas|
      invariant chunks == ChunksOf(Pieces(paginas[..i], split), id, path, md5)
    {
      PiecesSnoc(paginas, i, split);
      chunks := AppendPageChunks(chunks, Pieces(paginas[..i], split), paginas[i], id, path, split, md5);
    }
    assert paginas[..|paginas|] == paginas;
    return Success(chunks);
  }
}
