/**
 * The ETL driver: extract page records and tables, attach the first table's head to the
 * first page, split into chunks and upsert them.
 */
module Pipeline {
  import opened Outcomes
  import opened Text
  import opened Records
  import opened Extract
  import opened Transform
  import opened Load

  /** The index `pipeline_etl` writes to. */
  const IndexName: string := "ragflow"

  datatype EtlError = ExtractFailed(extractError: ExtractError) | LoadFailed(loadError: LoadError)

  /** `if tables: docs[0]["tables"] = [tables[0].head().to_dict()]`: only the first page record changes. */
  function AttachFirstTable(docs: seq<Doc>, tables: seq<Table>): (r: seq<Doc>)
    requires tables != [] ==> docs != []
    ensures |r| == |docs|
    ensures forall i :: 0 < i < |docs| ==> r[i] == docs[i]
    ensures tables == [] ==> r == docs
    ensures tables != [] ==> r[0] == docs[0].(tables := [Head(tables[0])])
  {
    if tables == [] then docs else docs[0 := docs[0].(tables := [Head(tables[0])])]
  }

  /** The page records after the first table is attached, as they reach the splitter. */
  function EtlDocs(pdf: seq<PdfPage>, ocr: nat -> Option<string>): seq<Doc>
    requires PageRecords(pdf, ocr).Ok?
  {
    PageRecordsLength(pdf, ocr);
    AttachFirstTable(PageRecords(pdf, ocr).value, AllFrames(pdf))
  }

  /** The chunks handed to the loader, or the extraction failure that stops the run first. */
  function EtlChunks(pdf: seq<PdfPage>, ocr: nat -> Option<string>, maxTokens: nat, apiKey: Option<string>,
                     semantic: SemanticSplitter, sentence: SentenceSplitter): Result<seq<Doc>, ExtractError>
  {
    if PageRecords(pdf, ocr).Err? then Err(PageRecords(pdf, ocr).error)
    else Ok(Chunked(maxTokens, apiKey, semantic, sentence, EtlDocs(pdf, ocr)))
  }

  /**
   * `create_chunks_from_pdf_and_upsert`: extraction first (an OCR failure stops the run before
   * any table file is written or the store is touched), then tables and their CSV files, then
   * the table attachment, the split, and one upsert of exactly the split's output.
   */
  method CreateChunksFromPdfAndUpsert(store: PineconeStore, pdf: seq<PdfPage>, ocr: nat -> Option<string>,
                                      outputCsv: Option<string>, maxTokens: nat, apiKey: Option<string>,
                                      semantic: SemanticSplitter, sentence: SentenceSplitter, embed: Embedder,
                                      indexName: string, namespace: string)
    returns (r: Result<seq<Doc>, EtlError>, writes: seq<CsvWrite>)
    requires maxTokens > 0
    modifies store
    ensures PageRecords(pdf, ocr).Err? ==>
      r == Err(ExtractFailed(PageRecords(pdf, ocr).error)) && writes == [] &&
      store.indexes == old(store.indexes) && store.spaces == old(store.spaces)
    ensures PageRecords(pdf, ocr).Ok? ==>
      var chunks := EtlChunks(pdf, ocr, maxTokens, apiKey, semantic, sentence).value;
      writes == AllWrites(outputCsv, pdf) &&
      store.indexes == (if indexName in old(store.indexes) then old(store.indexes)
                        else old(store.indexes)[indexName := IndexSpec(Dimension, Metric)]) &&
      (Vectors(chunks, embed).Err? ==>
         r == Err(LoadFailed(Vectors(chunks, embed).error)) && store.spaces == old(store.spaces)) &&
      (Vectors(chunks, embed).Ok? ==>
         r == Ok(chunks) &&
         store.spaces == old(store.spaces)[(indexName, namespace) :=
                           ApplyUpsert(old(store.Space(indexName, namespace)), Vectors(chunks, embed).value)])
  {
    var extracted := ExtractTextWithFallback(pdf, ocr);
    if extracted.Err? {
      return Err(ExtractFailed(extracted.error)), [];
    }
    var docs := extracted.value;
    PageRecordsLength(pdf, ocr);
    var tables;
    tables, writes := ExtractTablesFromPdf(pdf, outputCsv);
    if tables != [] {
      docs := docs[0 := docs[0].(tables := [Head(tables[0])])];
    }
    assert docs == AttachFirstTable(extracted.value, tables);
    var finalChunks := SplitChunkSemanticSentence(docs, maxTokens, apiKey, semantic, sentence);
    var loaded := UpsertChunksToPinecone(store, finalChunks, indexName, namespace, embed);
    if loaded.Err? {
      return Err(LoadFailed(loaded.error)), writes;
    }
    return Ok(finalChunks), writes;
  }

  /** `pipeline_etl`: the same run into the "ragflow" index. */
  method PipelineEtl(store: PineconeStore, pdf: seq<PdfPage>, ocr: nat -> Option<string>,
                     outputCsv: Option<string>, maxTokens: nat, apiKey: Option<string>,
                     semantic: SemanticSplitter, sentence: SentenceSplitter, embed: Embedder, namespace: string)
    returns (r: Result<seq<Doc>, EtlError>, writes: seq<CsvWrite>)
    requires maxTokens > 0
    modifies store
    ensures PageRecords(pdf, ocr).Err? ==>
      r == Err(ExtractFailed(PageRecords(pdf, ocr).error)) && writes == [] &&
      store.indexes == old(store.indexes) && store.spaces == old(store.spaces)
    ensures PageRecords(pdf, ocr).Ok? ==>
      var chunks := EtlChunks(pdf, ocr, maxTokens, apiKey, semantic, sentence).value;
      writes == AllWrites(outputCsv, pdf) &&
      store.indexes == (if IndexName in old(store.indexes) then old(store.indexes)
                        else old(store.indexes)[IndexName := IndexSpec(Dimension, Metric)]) &&
      (Vectors(chunks, embed).Err? ==>
         r == Err(LoadFailed(Vectors(chunks, embed).error)) && store.spaces == old(store.spaces)) &&
      (Vectors(chunks, embed).Ok? ==>
         r == Ok(chunks) &&
         store.spaces == old(store.spaces)[(IndexName, namespace) :=
                           ApplyUpsert(old(store.Space(IndexName, namespace)), Vectors(chunks, embed).value)])
  {
    r, writes := CreateChunksFromPdfAndUpsert(store, pdf, ocr, outputCsv, maxTokens, apiKey,
                                              semantic, sentence, embed, "ragflow", namespace);
  }

  /** The default id of the chunks of page n: "Page n_n". */
  function PageKey(n: nat): string {
    PageTitle(n) + "_" + NatToString(n)
  }

  /** Different pages have different default ids. */
  lemma PageKeyInjective(a: nat, b: nat)
    requires PageKey(a) == PageKey(b)
    ensures a == b
  {
    PageTitleInjective(a, b);
    PageTitleInjective(b, a);
    SplitAtSeparator(PageTitle(a), NatToString(a), PageTitle(b), NatToString(b), '_');
  }

  /**
   * What the chunks of a run carry: chunk j comes from page src[j] + 1, has its title
   * "Page n" and labels [n], and carries the first table's head when it comes from page 1
   * and some table was found, no tables otherwise.
   */
  lemma EtlChunkProvenance(pdf: seq<PdfPage>, ocr: nat -> Option<string>, maxTokens: nat, apiKey: Option<string>,
                           semantic: SemanticSplitter, sentence: SentenceSplitter, src: seq<nat>, chunks: seq<Doc>)
    requires PageRecords(pdf, ocr).Ok?
    requires src == Sources(maxTokens, apiKey, semantic, sentence, EtlDocs(pdf, ocr))
    requires chunks == EtlChunks(pdf, ocr, maxTokens, apiKey, semantic, sentence).value
    ensures |src| == |chunks|
    ensures forall j :: 0 <= j < |chunks| ==>
              src[j] < |pdf| && chunks[j].id == None &&
              chunks[j].title == PageTitle(src[j] + 1) && chunks[j].pageLabels == [src[j] + 1] &&
              chunks[j].tables == (if src[j] == 0 && AllFrames(pdf) != [] then [Head(AllFrames(pdf)[0])] else [])
  {
    PageRecordsLength(pdf, ocr);
    var docs := EtlDocs(pdf, ocr);
    assert chunks == Chunked(maxTokens, apiKey, semantic, sentence, docs);
    ChunkedProvenance(maxTokens, apiKey, semantic, sentence, docs);
    forall i | 0 <= i < |pdf| ensures docs[i].title == PageTitle(i + 1) && docs[i].pageLabels == [i + 1] &&
      docs[i].tables == (if i == 0 && AllFrames(pdf) != [] then [Head(AllFrames(pdf)[0])] else [])
    {
      PageRecordAt(pdf, ocr, i);
    }
  }

  /** For chunks without an explicit id, titled and labelled after page src[j] + 1, the record ids are the page keys. */
  lemma PageChunkIds(chunks: seq<Doc>, embed: Embedder, src: seq<nat>, vs: seq<VectorRecord>)
    requires Vectors(chunks, embed).Ok? && vs == Vectors(chunks, embed).value && |src| == |chunks|
    requires forall j :: 0 <= j < |chunks| ==>
      chunks[j].id == None && chunks[j].title == PageTitle(src[j] + 1) && chunks[j].pageLabels == [src[j] + 1]
    ensures |vs| == |src|
    ensures forall j :: 0 <= j < |src| ==> vs[j].id == PageKey(src[j] + 1)
  {
    if chunks != [] {
      VectorAt(chunks, embed, 0);
    }
    forall j | 0 <= j < |src| ensures vs[j].id == PageKey(src[j] + 1) {
      VectorAt(chunks, embed, j);
    }
  }

  /** Records keyed by page share a key exactly when they come from the same page. */
  lemma PageKeysSamePage(vs: seq<VectorRecord>, src: seq<nat>)
    requires |vs| == |src|
    requires forall j :: 0 <= j < |vs| ==> vs[j].id == PageKey(src[j] + 1)
    ensures forall j, k :: 0 <= j < |vs| && 0 <= k < |vs| ==> (vs[j].id == vs[k].id <==> src[j] == src[k])
  {
    forall j, k | 0 <= j < |vs| && 0 <= k < |vs| && vs[j].id == vs[k].id ensures src[j] == src[k] {
      PageKeyInjective(src[j] + 1, src[k] + 1);
    }
  }

  /**
   * Chunks of a run get the same record id exactly when they come from the same page: the
   * chunks of one page overwrite each other in the store, and pages never overwrite each other.
   */
  lemma EtlRecordIdsPerPage(pdf: seq<PdfPage>, ocr: nat -> Option<string>, maxTokens: nat, apiKey: Option<string>,
                            semantic: SemanticSplitter, sentence: SentenceSplitter, embed: Embedder,
                            src: seq<nat>, chunks: seq<Doc>, vs: seq<VectorRecord>)
    requires PageRecords(pdf, ocr).Ok?
    requires src == Sources(maxTokens, apiKey, semantic, sentence, EtlDocs(pdf, ocr))
    requires chunks == EtlChunks(pdf, ocr, maxTokens, apiKey, semantic, sentence).value
    requires Vectors(chunks, embed).Ok? && vs == Vectors(chunks, embed).value
    ensures |vs| == |src|
    ensures forall j :: 0 <= j < |vs| && j < |src| ==> vs[j].id == PageKey(src[j] + 1)
    ensures forall j, k :: 0 <= j < |vs| && j < |src| && 0 <= k < |vs| && k < |src| ==>
              (vs[j].id == vs[k].id <==> src[j] == src[k])
  {
    EtlChunkProvenance(pdf, ocr, maxTokens, apiKey, semantic, sentence, src, chunks);
    PageChunkIds(chunks, embed, src, vs);
    PageKeysSamePage(vs, src);
  }

  /** The keys a batch of page-keyed records leaves, and the record kept under each key. */
  lemma PageKeyedUpsert(m: map<string, VectorRecord>, vs: seq<VectorRecord>, src: seq<nat>, j: nat)
    requires |vs| == |src|
    requires forall k :: 0 <= k < |vs| ==> vs[k].id == PageKey(src[k] + 1)
    ensures ApplyUpsert(m, vs).Keys == m.Keys + set k | 0 <= k < |src| :: PageKey(src[k] + 1)
    ensures j < |src| && (forall k :: j < k < |src| ==> src[k] != src[j]) ==>
              ApplyUpsert(m, vs)[PageKey(src[j] + 1)] == vs[j]
  {
    UpsertKeys(m, vs);
    var ids := set r | r in vs :: r.id;
    var keys := set k | 0 <= k < |src| :: PageKey(src[k] + 1);
    forall x | x in ids ensures x in keys {
      var r :| r in vs && r.id == x;
      var k :| 0 <= k < |vs| && vs[k] == r;
      assert x == PageKey(src[k] + 1);
    }
    forall x | x in keys ensures x in ids {
      var k :| 0 <= k < |src| && x == PageKey(src[k] + 1);
      assert vs[k] in vs;
    }
    assert ids == keys;
    if j < |src| && (forall k :: j < k < |src| ==> src[k] != src[j]) {
      forall k | j < k < |vs| ensures vs[k].id != vs[j].id {
        if vs[k].id == vs[j].id {
          PageKeyInjective(src[k] + 1, src[j] + 1);
        }
      }
      UpsertLastWins(m, vs, j);
    }
  }

  /**
   * What a successful run leaves in its namespace: the old keys plus one key per page that
   * produced a chunk, and under each such page the record of that page's last chunk.
   */
  lemma EtlStoredPages(pdf: seq<PdfPage>, ocr: nat -> Option<string>, maxTokens: nat, apiKey: Option<string>,
                       semantic: SemanticSplitter, sentence: SentenceSplitter, embed: Embedder,
                       m: map<string, VectorRecord>, src: seq<nat>, chunks: seq<Doc>, vs: seq<VectorRecord>, j: nat)
    requires PageRecords(pdf, ocr).Ok?
    requires src == Sources(maxTokens, apiKey, semantic, sentence, EtlDocs(pdf, ocr))
    requires chunks == EtlChunks(pdf, ocr, maxTokens, apiKey, semantic, sentence).value
    requires Vectors(chunks, embed).Ok? && vs == Vectors(chunks, embed).value
    ensures ApplyUpsert(m, vs).Keys == m.Keys + set k | 0 <= k < |src| :: PageKey(src[k] + 1)
    ensures j < |src| && j < |vs| && (forall k :: j < k < |src| ==> src[k] != src[j]) ==>
              PageKey(src[j] + 1) in ApplyUpsert(m, vs) && ApplyUpsert(m, vs)[PageKey(src[j] + 1)] == vs[j]
  {
    EtlChunkProvenance(pdf, ocr, maxTokens, apiKey, semantic, sentence, src, chunks);
    PageChunkIds(chunks, embed, src, vs);
    PageKeyedUpsert(m, vs, src, j);
  }
}
