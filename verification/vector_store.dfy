/**
 * The ChromaDB gateway of project/src/llm_rag/vector_store.py.
 *
 * The server is a map from collection name to the chunks stored in it, in
 * insertion order; a `VectorStore` holds the server and the name of the
 * collection it works on, `None` until `criar_colecao` runs.  Embeddings
 * and the nearest-neighbour query are not part of this model: the query is
 * a function from the candidate chunks, the query text and the number of
 * results to the hits, with their distances.
 */
module Store {
  import opened Common
  import opened Seqs
  import opened RagRecords
  import opened PdfProcessor

  /** The error every data operation raises while no collection is selected. */
  const NAO_CRIADA: string := "Cole\U{E7}\U{E3}o n\U{E3}o foi criada. Execute criar_colecao() primeiro."

  /** A stored chunk: its id, document text and metadata. */
  datatype Entry = Entry(id: string, texto: string, metadata: Metadata)

  /** What `collection.add` stores for a chunk. */
  function EntryOf(c: Chunk): (e: Entry)
    ensures e.id == c.chunkId && e.texto == c.texto && e.metadata == c.metadata
  {
    Entry(c.chunkId, c.texto, c.metadata)
  }

  function EntriesOf(chunks: seq<Chunk>): (es: seq<Entry>)
    ensures |es| == |chunks|
    ensures forall k :: 0 <= k < |chunks| ==> es[k] == EntryOf(chunks[k])
  {
    seq(|chunks|, k requires 0 <= k < |chunks| => EntryOf(chunks[k]))
  }

  // --------------------------------------------------------------- search

  /** One candidate of a query: its text, metadata and distance. */
  datatype Hit = Hit(texto: string, metadata: Metadata, distancia: real)

  /** The similarity threshold is applied to the unrounded `1 - distance`. */
  predicate Passes(h: Hit, threshold: real)
  {
    1.0 - h.distancia >= threshold
  }

  /** The result dictionary of a kept hit; `round4` stands for `round(x, 4)`. */
  function DocOf(h: Hit, round4: real -> real): Document
  {
    Document(h.texto, h.metadata, Some(round4(1.0 - h.distancia)), Some(round4(h.distancia)))
  }

  /** The hits that pass the threshold, as result dictionaries, in the order of the query. */
  function Kept(hits: seq<Hit>, threshold: real, round4: real -> real): (r: seq<Document>)
    ensures |r| <= |hits|
    decreases |hits|
  {
    if hits == [] then []
    else
      var n := |hits| - 1;
      Kept(hits[..n], threshold, round4)
        + (if Passes(hits[n], threshold) then [DocOf(hits[n], round4)] else [])
  }

  /** One more hit adds its dictionary exactly when it passes. */
  lemma KeptSnoc(hits: seq<Hit>, h: Hit, threshold: real, round4: real -> real)
    ensures Kept(hits + [h], threshold, round4)
            == Kept(hits, threshold, round4) + (if Passes(h, threshold) then [DocOf(h, round4)] else [])
  {
    assert (hits + [h])[..|hits|] == hits;
  }

  /** Filtering commutes with concatenation: the query's order is kept. */
  lemma {:induction false} KeptAppend(a: seq<Hit>, b: seq<Hit>, threshold: real, round4: real -> real)
    ensures Kept(a + b, threshold, round4) == Kept(a, threshold, round4) + Kept(b, threshold, round4)
    decreases |b|
  {
    if b == [] {
      assert a + b == a;
    } else {
      var n := |b| - 1;
      var p, h := b[..n], b[n];
      assert b == p + [h];
      assert a + b == (a + p) + [h];
      KeptAppend(a, p, threshold, round4);
      KeptSnoc(a + p, h, threshold, round4);
      KeptSnoc(p, h, threshold, round4);
      ConcatAssoc(Kept(a, threshold, round4), Kept(p, threshold, round4),
                  if Passes(h, threshold) then [DocOf(h, round4)] else []);
    }
  }

  /** A result is the dictionary of a passing hit, and every passing hit gives a result. */
  lemma {:induction false} KeptMembers(hits: seq<Hit>, threshold: real, round4: real -> real)
    ensures forall d :: d in Kept(hits, threshold, round4) ==>
              exists h :: h in hits && Passes(h, threshold) && d == DocOf(h, round4)
    ensures forall h :: h in hits && Passes(h, threshold) ==> DocOf(h, round4) in Kept(hits, threshold, round4)
    decreases |hits|
  {
    if hits != [] {
      var n := |hits| - 1;
      var p := hits[..n];
      KeptMembers(p, threshold, round4);
      assert hits == p + [hits[n]];
      forall h | h in hits && Passes(h, threshold) ensures DocOf(h, round4) in Kept(hits, threshold, round4) {
        if h in p {
          assert DocOf(h, round4) in Kept(p, threshold, round4);
        }
      }
    }
  }

  /** When every hit passes, every hit is returned, in order. */
  lemma {:induction false} KeptAllPass(hits: seq<Hit>, threshold: real, round4: real -> real)
    requires forall h :: h in hits ==> Passes(h, threshold)
    ensures |Kept(hits, threshold, round4)| == |hits|
    ensures forall k :: 0 <= k < |hits| ==> Kept(hits, threshold, round4)[k] == DocOf(hits[k], round4)
    decreases |hits|
  {
    if hits != [] {
      var n := |hits| - 1;
      var p := hits[..n];
      assert hits == p + [hits[n]];
      KeptAllPass(p, threshold, round4);
      KeptSnoc(p, hits[n], threshold, round4);
    }
  }

  /** The entries whose metadata satisfies a `where` filter, in order. */
  function Filtered(entries: seq<Entry>, filtro: Metadata -> bool): (r: seq<Entry>)
    ensures forall e :: e in r <==> e in entries && filtro(e.metadata)
    decreases |entries|
  {
    if entries == [] then []
    else
      var n := |entries| - 1;
      Filtered(entries[..n], filtro) + (if filtro(entries[n].metadata) then [entries[n]] else [])
  }

  // ------------------------------------------------------------- deletion

  predicate OfDocument(e: Entry, id: string)
  {
    e.metadata.documentoId == Some(id)
  }

  /** `collection.get(where={"documento_id": id})`: the chunks of one document, in order. */
  function Matching(entries: seq<Entry>, id: string): (r: seq<Entry>)
    ensures |r| <= |entries|
    decreases |entries|
  {
    if entries == [] then []
    else
      var n := |entries| - 1;
      Matching(entries[..n], id) + (if OfDocument(entries[n], id) then [entries[n]] else [])
  }

  /** The collection once the chunks of one document are deleted. */
  function Remaining(entries: seq<Entry>, id: string): (r: seq<Entry>)
    ensures |r| <= |entries|
    decreases |entries|
  {
    if entries == [] then []
    else
      var n := |entries| - 1;
      Remaining(entries[..n], id) + (if OfDocument(entries[n], id) then [] else [entries[n]])
  }

  /**
   * Deletion splits the collection: exactly the chunks of the document are
   * deleted, every other chunk is kept, and the two counts add up.
   */
  lemma {:induction false} DeletionPartition(entries: seq<Entry>, id: string)
    ensures |Matching(entries, id)| + |Remaining(entries, id)| == |entries|
    ensures forall e :: e in Matching(entries, id) <==> e in entries && OfDocument(e, id)
    ensures forall e :: e in Remaining(entries, id) <==> e in entries && !OfDocument(e, id)
    decreases |entries|
  {
    if entries != [] {
      var n := |entries| - 1;
      DeletionPartition(entries[..n], id);
      assert entries == entries[..n] + [entries[n]];
    }
  }

  /** A document with no chunks deletes nothing. */
  lemma {:induction false} NothingToDelete(entries: seq<Entry>, id: string)
    requires Matching(entries, id) == []
    ensures Remaining(entries, id) == entries
    decreases |entries|
  {
    if entries != [] {
      var n := |entries| - 1;
      var p := entries[..n];
      assert Matching(p, id) == [];
      NothingToDelete(p, id);
      assert entries == p + [entries[n]];
    }
  }

  // -------------------------------------------------------------- listing

  /** `if doc_id`: the metadata carries a non-empty `documento_id`. */
  predicate HasId(m: Metadata)
  {
    m.documentoId.Some? && m.documentoId.value != ""
  }

  /** The non-empty document ids of the metadatas, one per metadata that has one, in order. */
  function IdsOf(metas: seq<Metadata>): (r: seq<string>)
    ensures |r| <= |metas|
    decreases |metas|
  {
    if metas == [] then []
    else
      var n := |metas| - 1;
      IdsOf(metas[..n]) + (if HasId(metas[n]) then [metas[n].documentoId.value] else [])
  }

  /** An id is collected iff some metadata carries it. */
  lemma {:induction false} IdsOfMembers(metas: seq<Metadata>)
    ensures forall id :: id in IdsOf(metas) <==>
              exists k :: 0 <= k < |metas| && HasId(metas[k]) && metas[k].documentoId.value == id
    decreases |metas|
  {
    if metas != [] {
      var n := |metas| - 1;
      IdsOfMembers(metas[..n]);
      assert forall k :: 0 <= k < n ==> metas[..n][k] == metas[k];
    }
  }

  /** How many times `x` occurs in `xs`. */
  function Occurrences(xs: seq<string>, x: string): nat
    decreases |xs|
  {
    if xs == [] then 0
    else Occurrences(xs[..|xs| - 1], x) + (if xs[|xs| - 1] == x then 1 else 0)
  }

  /** The first metadata that carries `id`. */
  function FirstWith(metas: seq<Metadata>, id: string): Metadata
    requires id in IdsOf(metas)
    decreases |metas|
  {
    var n := |metas| - 1;
    if id in IdsOf(metas[..n]) then FirstWith(metas[..n], id) else metas[n]
  }

  /** One entry of `listar_documentos`. */
  datatype DocInfo = DocInfo(documentoId: string, documentoNome: Option<string>, totalPaginas: Option<int>, numChunks: nat)

  /** The entry for `id`: name and page count from its first chunk, and the number of its chunks. */
  function InfoFor(metas: seq<Metadata>, id: string): DocInfo
    requires id in IdsOf(metas)
  {
    var m := FirstWith(metas, id);
    DocInfo(id, m.documentoNome, m.totalPaginas, Occurrences(IdsOf(metas), id))
  }

  /** The listing: one entry per distinct non-empty id, in the order the ids are first seen. */
  function Listed(metas: seq<Metadata>): (r: seq<DocInfo>)
    ensures |r| == |Dedup(IdsOf(metas))|
    ensures forall k :: 0 <= k < |r| ==> r[k].documentoId == Dedup(IdsOf(metas))[k]
  {
    var ids := Dedup(IdsOf(metas));
    DedupElements(IdsOf(metas));
    seq(|ids|, k requires 0 <= k < |ids| => InfoFor(metas, ids[k]))
  }

  /** `FirstWith` is the metadata at the first position that carries the id. */
  lemma {:induction false} FirstWithIsFirst(metas: seq<Metadata>, id: string)
    requires id in IdsOf(metas)
    ensures exists k :: 0 <= k < |metas| && metas[k] == FirstWith(metas, id) && HasId(metas[k])
              && metas[k].documentoId.value == id
              && forall j :: 0 <= j < k ==> !(HasId(metas[j]) && metas[j].documentoId.value == id)
    decreases |metas|
  {
    var n := |metas| - 1;
    var p := metas[..n];
    assert forall j :: 0 <= j < n ==> p[j] == metas[j];
    if id in IdsOf(p) {
      FirstWithIsFirst(p, id);
      var k :| 0 <= k < |p| && p[k] == FirstWith(p, id) && HasId(p[k]) && p[k].documentoId.value == id
               && forall j :: 0 <= j < k ==> !(HasId(p[j]) && p[j].documentoId.value == id);
      assert metas[k] == p[k];
    } else {
      assert IdsOf(metas) == IdsOf(p) + (if HasId(metas[n]) then [metas[n].documentoId.value] else []);
      assert HasId(metas[n]) && metas[n].documentoId.value == id;
      IdsOfMembers(p);
      assert FirstWith(metas, id) == metas[n];
    }
  }

  lemma {:induction false} OccurrencesPositive(xs: seq<string>, x: string)
    ensures x in xs <==> Occurrences(xs, x) > 0
    decreases |xs|
  {
    if xs != [] {
      var n := |xs| - 1;
      OccurrencesPositive(xs[..n], x);
      assert xs == xs[..n] + [xs[n]];
    }
  }

  lemma {:induction false} OccurrencesOfDistinct(xs: seq<string>, x: string)
    requires Distinct(xs) && x in xs
    ensures Occurrences(xs, x) == 1
    decreases |xs|
  {
    var n := |xs| - 1;
    var p := xs[..n];
    assert Distinct(p);
    if xs[n] == x {
      assert x !in p;
      OccurrencesPositive(p, x);
    } else {
      assert xs == p + [xs[n]];
      OccurrencesOfDistinct(p, x);
    }
  }

  /** The sum of the occurrence counts of the elements of `ds` in `xs`. */
  function SumOccurrences(xs: seq<string>, ds: seq<string>): nat
    decreases |ds|
  {
    if ds == [] then 0
    else SumOccurrences(xs, ds[..|ds| - 1]) + Occurrences(xs, ds[|ds| - 1])
  }

  lemma {:induction false} SumOccurrencesSnoc(xs: seq<string>, x: string, ds: seq<string>)
    ensures SumOccurrences(xs + [x], ds) == SumOccurrences(xs, ds) + Occurrences(ds, x)
    decreases |ds|
  {
    if ds != [] {
      var n := |ds| - 1;
      SumOccurrencesSnoc(xs, x, ds[..n]);
      assert (xs + [x])[..|xs|] == xs;
    }
  }

  /** Counting each distinct element once accounts for every element. */
  lemma {:induction false} SumOverDedup(xs: seq<string>)
    ensures SumOccurrences(xs, Dedup(xs)) == |xs|
    decreases |xs|
  {
    if xs != [] {
      var n := |xs| - 1;
      var p := xs[..n];
      var x := xs[n];
      var d := Dedup(p);
      assert xs == p + [x];
      SumOverDedup(p);
      SumOccurrencesSnoc(p, x, d);
      DedupDistinct(p);
      DedupElements(p);
      if x in d {
        OccurrencesOfDistinct(d, x);
      } else {
        OccurrencesPositive(d, x);
        OccurrencesPositive(p, x);
        SumOccurrencesSnoc(p, x, d + [x]);
        assert (d + [x])[..|d|] == d;
      }
    }
  }

  function SumChunks(l: seq<DocInfo>): nat
    decreases |l|
  {
    if l == [] then 0 else SumChunks(l[..|l| - 1]) + l[|l| - 1].numChunks
  }

  lemma {:induction false} SumChunksOfInfo(metas: seq<Metadata>, ds: seq<string>, l: seq<DocInfo>)
    requires forall d :: d in ds ==> d in IdsOf(metas)
    requires |l| == |ds| && forall k :: 0 <= k < |ds| ==> l[k] == InfoFor(metas, ds[k])
    ensures SumChunks(l) == SumOccurrences(IdsOf(metas), ds)
    decreases |ds|
  {
    if ds != [] {
      var n := |ds| - 1;
      SumChunksOfInfo(metas, ds[..n], l[..n]);
    }
  }

  /**
   * The listing of `listar_documentos`: the ids are distinct, an id is listed
   * iff some chunk carries it, and each count is positive and is the number
   * of chunks that carry the id.
   */
  lemma ListedProperties(metas: seq<Metadata>)
    ensures forall a, b :: 0 <= a < b < |Listed(metas)| ==> Listed(metas)[a].documentoId != Listed(metas)[b].documentoId
    ensures forall id :: id in IdsOf(metas) <==> exists k :: 0 <= k < |Listed(metas)| && Listed(metas)[k].documentoId == id
    ensures forall k :: 0 <= k < |Listed(metas)| ==>
              Listed(metas)[k].numChunks == Occurrences(IdsOf(metas), Listed(metas)[k].documentoId) > 0
  {
    var ids := IdsOf(metas);
    var l := Listed(metas);
    DedupDistinct(ids);
    DedupElements(ids);
    forall id | id in ids ensures exists k :: 0 <= k < |l| && l[k].documentoId == id {
      var k :| 0 <= k < |Dedup(ids)| && Dedup(ids)[k] == id;
      assert l[k].documentoId == id;
    }
    forall k | 0 <= k < |l| ensures l[k].numChunks == Occurrences(ids, l[k].documentoId) > 0 {
      OccurrencesPositive(ids, l[k].documentoId);
    }
  }

  /** The counts of the listing add up to the number of chunks that carry an id. */
  lemma ListedTotal(metas: seq<Metadata>)
    ensures SumChunks(Listed(metas)) == |IdsOf(metas)|
  {
    var ids := IdsOf(metas);
    DedupElements(ids);
    SumChunksOfInfo(metas, Dedup(ids), Listed(metas));
    SumOverDedup(ids);
  }

  function MetadatasOf(entries: seq<Entry>): (ms: seq<Metadata>)
    ensures |ms| == |entries| && forall k :: 0 <= k < |entries| ==> ms[k] == entries[k].metadata
  {
    seq(|entries|, k requires 0 <= k < |entries| => entries[k].metadata)
  }

  lemma IdsOfSnoc(metas: seq<Metadata>, i: nat)
    requires i < |metas|
    ensures IdsOf(metas[..i + 1]) == IdsOf(metas[..i]) + (if HasId(metas[i]) then [metas[i].documentoId.value] else [])
  {
    assert metas[..i + 1][..i] == metas[..i];
  }

  lemma FirstWithSnoc(metas: seq<Metadata>, i: nat, id: string)
    requires i < |metas| && id in IdsOf(metas[..i])
    ensures id in IdsOf(metas[..i + 1]) && FirstWith(metas[..i + 1], id) == FirstWith(metas[..i], id)
  {
    IdsOfSnoc(metas, i);
    assert metas[..i + 1][..i] == metas[..i];
  }

  /** What the grouping loop of `listar_documentos` knows after `i` metadatas. */
  ghost predicate ListInv(metas: seq<Metadata>, i: nat, ordem: seq<string>, docs: map<string, DocInfo>)
    requires i <= |metas|
  {
    && ordem == Dedup(IdsOf(metas[..i]))
    && (forall id :: id in docs <==> id in IdsOf(metas[..i]))
    && (forall id :: id in docs ==> id in IdsOf(metas[..i]) && docs[id] == InfoFor(metas[..i], id))
  }

  lemma ListStepSkip(metas: seq<Metadata>, i: nat, ordem: seq<string>, docs: map<string, DocInfo>)
    requires i < |metas| && ListInv(metas, i, ordem, docs) && !HasId(metas[i])
    ensures ListInv(metas, i + 1, ordem, docs)
  {
    IdsOfSnoc(metas, i);
    assert IdsOf(metas[..i + 1]) == IdsOf(metas[..i]);
    forall id | id in docs ensures InfoFor(metas[..i + 1], id) == docs[id] {
      FirstWithSnoc(metas, i, id);
    }
  }

  lemma ListStepNew(metas: seq<Metadata>, i: nat, ordem: seq<string>, docs: map<string, DocInfo>)
    requires i < |metas| && ListInv(metas, i, ordem, docs) && HasId(metas[i])
    requires metas[i].documentoId.value !in docs
    ensures var id := metas[i].documentoId.value;
            var d := docs[id := DocInfo(id, metas[i].documentoNome, metas[i].totalPaginas, 0)];
            ListInv(metas, i + 1, ordem + [id], d[id := d[id].(numChunks := d[id].numChunks + 1)])
  {
    var id := metas[i].documentoId.value;
    IdsOfSnoc(metas, i);
    DedupElements(IdsOf(metas[..i]));
    OccurrencesPositive(IdsOf(metas[..i]), id);
    assert metas[..i + 1][..i] == metas[..i];
    forall x | x in docs ensures InfoFor(metas[..i + 1], x) == docs[x] {
      FirstWithSnoc(metas, i, x);
    }
  }

  lemma ListStepOld(metas: seq<Metadata>, i: nat, ordem: seq<string>, docs: map<string, DocInfo>)
    requires i < |metas| && ListInv(metas, i, ordem, docs) && HasId(metas[i])
    requires metas[i].documentoId.value in docs
    ensures var id := metas[i].documentoId.value;
            ListInv(metas, i + 1, ordem, docs[id := docs[id].(numChunks := docs[id].numChunks + 1)])
  {
    var id := metas[i].documentoId.value;
    IdsOfSnoc(metas, i);
    DedupElements(IdsOf(metas[..i]));
    assert metas[..i + 1][..i] == metas[..i];
    forall x | x in docs ensures InfoFor(metas[..i + 1], x) == docs[x].(numChunks := docs[x].numChunks + if x == id then 1 else 0) {
      FirstWithSnoc(metas, i, x);
    }
  }

  lemma ListFinal(metas: seq<Metadata>, ordem: seq<string>, docs: map<string, DocInfo>)
    requires ListInv(metas, |metas|, ordem, docs)
    ensures forall k :: 0 <= k < |ordem| ==> ordem[k] in docs
    ensures Listed(metas) == seq(|ordem|, k requires 0 <= k < |ordem| => docs[ordem[k]])
  {
    assert metas[..|metas|] == metas;
    DedupElements(IdsOf(metas));
  }

  // ---------------------------------------------------------------- store

  class VectorStore {
    /** The server: every collection by name. */
    var colecoes: map<string, seq<Entry>>
    /** `self.collection`: the name of the selected collection. */
    var collection: Option<string>

    predicate Valid()
      reads this
    {
      collection.Some? ==> collection.value in colecoes
    }

    /** The chunks of the selected collection. */
    function Entries(): seq<Entry>
      reads this
      requires Valid() && collection.Some?
    {
      colecoes[collection.value]
    }

    /** A store connected to a server; no collection is selected yet. */
    constructor (servidor: map<string, seq<Entry>>)
      ensures Valid() && colecoes == servidor && collection == None
    {
      colecoes := servidor;
      collection := None;
    }

    /** `criar_colecao`: gets or creates the named collection (the configured one by default) and selects it. */
    method CriarColecao(nome: Option<string>, padrao: string) returns (escolhida: string)
      modifies this
      ensures escolhida == (if nome.Some? then nome.value else padrao)
      ensures collection == Some(escolhida) && Valid()
      ensures escolhida in old(colecoes) ==> colecoes == old(colecoes)
      ensures escolhida !in old(colecoes) ==> colecoes == old(colecoes)[escolhida := []]
    {
      escolhida := if nome.Some? then nome.value else padrao;
      if escolhida !in colecoes {
        colecoes := colecoes[escolhida := []];
      }
      collection := Some(escolhida);
    }

    /** `adicionar_documentos`: appends the chunks and reports how many there were. */
    method AdicionarDocumentos(chunks: seq<Chunk>) returns (r: Result<nat, string>)
      requires Valid()
      modifies this
      ensures Valid() && collection == old(collection)
      ensures old(collection).None? ==> r == Failure(NAO_CRIADA) && colecoes == old(colecoes)
      ensures chunks == [] ==> colecoes == old(colecoes)
      ensures old(collection).Some? ==>
                r == Success(|chunks|)
                && colecoes == old(colecoes)[collection.value := old(Entries()) + EntriesOf(chunks)]
    {
      if collection.None? {
        return Failure(NAO_CRIADA);
      }
      if chunks == [] {
        assert EntriesOf(chunks) == [] && Entries() + [] == Entries();
        assert colecoes[collection.value := Entries() + EntriesOf(chunks)] == colecoes;
        return Success(0);
      }
      colecoes := colecoes[collection.value := Entries() + EntriesOf(chunks)];
      return Success(|chunks|);
    }

    /** The outcome `buscar_documentos` specifies. */
    function Buscado(consulta: string, nResultados: Option<int>, topK: int, threshold: real,
                     filtro: Option<Metadata -> bool>,
                     query: (seq<Entry>, string, int) -> seq<Hit>, round4: real -> real): (r: Result<seq<Document>, string>)
      reads this
      requires Valid()
      ensures collection.None? <==> r == Failure(NAO_CRIADA)
    {
      if collection.None? then Failure(NAO_CRIADA)
      else
        var n := if nResultados.None? then topK else nResultados.value;
        var candidatos := if filtro.None? then Entries() else Filtered(Entries(), filtro.value);
        Success(Kept(query(candidatos, consulta, n), threshold, round4))
    }

    /** `buscar_documentos`: the threshold loop over the query's hits. */
    method BuscarDocumentos(consulta: string, nResultados: Option<int>, topK: int, threshold: real,
                            filtro: Option<Metadata -> bool>,
                            query: (seq<Entry>, string, int) -> seq<Hit>, round4: real -> real)
      returns (r: Result<seq<Document>, string>)
      requires Valid()
      ensures r == Buscado(consulta, nResultados, topK, threshold, filtro, query, round4)
    {
      if collection.None? {
        return Failure(NAO_CRIADA);
      }
      var n := if nResultados.None? then topK else nResultados.value;
      var candidatos := if filtro.None? then Entries() else Filtered(Entries(), filtro.value);
      var hits := query(candidatos, consulta, n);
      var documentos: seq<Document> := [];
      for idx := 0 to |hits|
        invariant documentos == Kept(hits[..idx], threshold, round4)
      {
        assert hits[..idx + 1][..idx] == hits[..idx];
        var distancia := hits[idx].distancia;
        var similaridade := 1.0 - distancia;
        if similaridade >= threshold {
          documentos := documentos + [Document(hits[idx].texto, hits[idx].metadata,
                                               Some(round4(similaridade)), Some(round4(distancia)))];
        }
      }
      assert hits[..|hits|] == hits;
      return Success(documentos);
    }

    /** `deletar_documento`: removes the chunks of one document and reports how many. */
    method DeletarDocumento(documentoId: string) returns (r: Result<nat, string>)
      requires Valid()
      modifies this
      ensures Valid() && collection == old(collection)
      ensures old(collection).None? ==> r == Failure(NAO_CRIADA) && colecoes == old(colecoes)
      ensures old(collection).Some? ==>
                r == Success(|Matching(old(Entries()), documentoId)|)
                && colecoes == old(colecoes)[collection.value := Remaining(old(Entries()), documentoId)]
    {
      if collection.None? {
        return Failure(NAO_CRIADA);
      }
      var ids := Matching(Entries(), documentoId);
      if ids != [] {
        colecoes := colecoes[collection.value := Remaining(Entries(), documentoId)];
        return Success(|ids|);
      }
      NothingToDelete(Entries(), documentoId);
      assert colecoes[collection.value := Remaining(Entries(), documentoId)] == colecoes;
      return Success(0);
    }

    /** `listar_documentos`: the grouping loop over the metadatas, in insertion order. */
    method ListarDocumentos() returns (r: Result<seq<DocInfo>, string>)
      requires Valid()
      ensures collection.None? ==> r == Failure(NAO_CRIADA)
      ensures collection.Some? ==> r == Success(Listed(MetadatasOf(Entries())))
    {
      if collection.None? {
        return Failure(NAO_CRIADA);
      }
      var metas := MetadatasOf(Entries());
      var ordem: seq<string> := [];
      var documentos: map<string, DocInfo> := map[];
      for i := 0 to |metas|
        invariant ListInv(metas, i, ordem, documentos)
      {
        var metadata := metas[i];
        if !HasId(metadata) {
          ListStepSkip(metas, i, ordem, documentos);
        } else {
          var docId := metadata.documentoId.value;
          if docId !in documentos {
            ListStepNew(metas, i, ordem, documentos);
            documentos := documentos[docId := DocInfo(docId, metadata.documentoNome, metadata.totalPaginas, 0)];
            ordem := ordem + [docId];
          } else {
            ListStepOld(metas, i, ordem, documentos);
          }
          documentos := documentos[docId := documentos[docId].(numChunks := documentos[docId].numChunks + 1)];
        }
      }
      ListFinal(metas, ordem, documentos);
      r := Success(seq(|ordem|, k requires 0 <= k < |ordem| => documentos[ordem[k]]));
    }

    /** `contar_documentos`: the number of chunks in the selected collection. */
    method ContarDocumentos() returns (r: Result<nat, string>)
      requires Valid()
      ensures collection.None? <==> r == Failure(NAO_CRIADA)
      ensures collection.Some? ==> r == Success(|Entries()|)
    {
      if collection.None? {
        return Failure(NAO_CRIADA);
      }
      return Success(|colecoes[collection.value]|);
    }

    /** `limpar_colecao`: drops the selected collection and creates it again, empty, under the same name. */
    method LimparColecao() returns (r: Result<(), string>)
      requires Valid()
      modifies this
      ensures Valid() && collection == old(collection)
      ensures old(collection).None? ==> r == Failure(NAO_CRIADA) && colecoes == old(colecoes)
      ensures old(collection).Some? ==> r == Success(()) && colecoes == old(colecoes)[collection.value := []]
    {
      if collection.None? {
        return Failure(NAO_CRIADA);
      }
      var nome := collection.value;
      colecoes := map n | n in colecoes && n != nome :: colecoes[n];
      var _ := CriarColecao(Some(nome), nome);
      return Success(());
    }
  }
}
