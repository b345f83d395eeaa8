# PDF question answering: the ETL write path and the retrieval read path

This project models the core of a retrieval-augmented question-answering service over PDF brochures.
The core has two halves.

The **write path** is an ETL pipeline:
- it extracts per-page text with an OCR fallback for image-only pages;
- it extracts tables and optionally writes each one to a CSV file;
- it attaches a preview of the first table to the first page record;
- it splits every page into chunks, semantically when an OpenAI key is available and by sentences otherwise;
- it embeds each chunk and upserts the vectors into a Pinecone index, creating the index when it is absent.

The **read path** does the following:
- it retrieves candidates with a multi-query fusion retriever (three paraphrases);
- it reranks them with Cohere;
- it builds a prompt from the top passages and asks an LLM for the final answer, in a console loop that ends on `exit`.

Modules, one file each:

| module | file | models |
|---|---|---|
| `Outcomes` | outcomes.dfy | `Option`, `Result`, Python truthiness of an optional string |
| `Text` | text.dfy | `str.strip`, `str.lower`, decimal formatting of page numbers, `"sep".join` |
| `Records` | records.dfy | page records and chunks (`Doc`), pdfplumber pages and tables, DataFrames and `head()` |
| `Extract` | extract.dfy | `src/extract.py` (and its copy in `src/ingest_data.py`) |
| `Transform` | transform.dfy | `src/transform.py` (and its copy in `src/ingest_data.py`) |
| `Load` | load.dfy | `src/load.py` (and its copy); Pinecone as a class `PineconeStore` |
| `Retrieve` | retrieve.dfy | `cohere_rerank`, `multiquery_retrieve` in `src/retrieve.py` and `main.py` |
| `Pipeline` | pipeline.dfy | `pipeline_etl` and `create_chunks_from_pdf_and_upsert`, and what the whole write path stores |
| `Answer` | answer.dfy | `rag_agent_answer` and the question loop of `main.py` |

Each loop of the source is a `method` with a `for` or `while` loop. Each method is proved equal to a recursive specification function, and the properties the code promises are lemmas about those functions.

External services are function-valued parameters:
- OCR of page `i`;
- the semantic splitter, called with the page's position;
- the sentence splitter, called with `chunk_size` and `chunk_overlap`;
- the embedder;
- the Cohere scorer;
- the fusion retriever;
- the LLM.

A call that raises is modelled as `None` or `Err`. The Pinecone client is a class whose fields are:
- the index catalogue, `indexes`;
- one id-to-record map per (index, namespace), `spaces`.

Its methods update those fields in place.

## Model

| member | source | states |
|---|---|---|
| Text.BlankIffAllSpace | src/transform.py:23-25 | `text.strip()` is empty exactly when every character is whitespace |
| Text.StripIgnoresSurroundingSpace | main.py:92 | stripping ignores any whitespace added around the text |
| Text.TrimStartShape | src/transform.py:24 | the left-stripped text is a suffix of the input, preceded only by whitespace, and starts with a non-space |
| Text.TrimEndShape | src/transform.py:24 | the right-stripped text is a prefix of the input, followed only by whitespace, and ends with a non-space |
| Text.NatToString | src/load.py:34 | the decimal form of a page number is non-empty and all digits, and has one digit exactly below 10 |
| Text.NatToStringInjective | src/load.py:34 | different page numbers format to different strings |
| Text.SplitAtSeparator | src/load.py:34 | `a + sep + b` determines `a` and `b` when `a` has no separator |
| Text.JoinLength | main.py:84 | length of `sep.join(parts)`: the part offsets plus separators, minus one trailing separator |
| Text.JoinAt | main.py:84 | in `sep.join(parts)`, part `i` sits at its offset and the separator follows every part but the last |
| Records.Frame | src/extract.py:30 | `DataFrame(table[1:], columns=table[0])`: the header row followed by the body rows is the raw table again |
| Extract.ExtractTextWithFallback | src/extract.py:44-62 | the loop returns the page records specified by `PageRecords`: one per page, with OCR for blank pages, or the first OCR failure |
| Extract.PageRecordsOk | src/extract.py:47-54 | extraction succeeds exactly when OCR succeeds on every page whose text layer is missing or blank |
| Extract.PageRecordsLength | src/extract.py:47-60 | on success there is exactly one record per page |
| Extract.PageRecordAt | src/extract.py:55-60 | record i is titled "Page i+1", labelled [i+1], has no tables and no id, and its text is the text layer, or the OCR text when the layer is blank |
| Extract.PageRecordsFirstFailure | src/extract.py:48-54 | a failure names the first page that is blank and whose OCR failed; every earlier blank page was OCR-ed |
| Extract.PageRecordsErrPersists | src/extract.py:47-54 | a failure on a prefix of the pages is the failure of the whole call |
| Extract.ExtractTablesFromPdf | src/extract.py:14-42 | the loop returns the frames and CSV writes given by `AllFrames` and `AllWrites` |
| Extract.AppendPageTables | src/extract.py:28-41 | one page appends one frame per non-empty table, and one CSV write each when an output prefix is set |
| Extract.NoTablesIffNoFrames | src/extract.py:19-27 | a page contributes no frames exactly when it has no tables or only empty ones |
| Extract.TableWritesLength | src/extract.py:36-41 | a page writes one CSV per frame it contributes |
| Extract.TableWritesMatchFrames | src/extract.py:28-41 | write j of a page stores frame j under `<prefix>_page<n>_table<k>.csv`, where k is the 1-based position of a non-empty table |
| Extract.NoWritesWhenFalsy | src/extract.py:21-41 | with no or an empty output prefix nothing is written |
| Extract.CsvPathInjective | src/extract.py:23-38 | two CSV paths with the same prefix are equal only for the same page and table number |
| Extract.TableNumbersNameFiles | src/extract.py:28-41 | the table files of one page are named by strictly increasing table numbers between 1 and the page's table count |
| Extract.FileNumbersNameFiles | src/extract.py:17-41 | every file written is named after its page, in range, and its table number (0 for the sentinel); the (page, table) pairs strictly increase in writing order |
| Extract.AllWritesDistinct | src/extract.py:14-42 | no two CSV files written by one call have the same path, so none overwrites another |
| Extract.PageTitleInjective | src/extract.py:56 | page titles hold no `_` and differ between pages |
| Transform.SplitChunkSemanticSentence | src/transform.py:11-57 | the loop returns the chunk list given by `Chunked` |
| Transform.AppendChunks | src/transform.py:35-41 | appending the nodes of one page adds one chunk per part, in order, with the page's title, labels and tables |
| Transform.PageBlock | src/transform.py:22-55 | the chunks of page i form one contiguous block. It is empty for a blank page. Otherwise it holds the semantic nodes when a key is set and the semantic splitter succeeds, and the sentence parts (chunk_size maxTokens, overlap maxTokens/10) otherwise |
| Transform.PageBlockAt | src/transform.py:22-55 | the block of page i starts right after the chunks of the earlier pages |
| Transform.ChunkedPrefix | src/transform.py:22 | the chunks of the first k pages are a prefix of all the chunks |
| Transform.ChunkedProvenance | src/transform.py:35-55 | every chunk comes from a non-blank page, whose title, labels and tables it copies; source pages never decrease along the list |
| Transform.SourcesLength | src/transform.py:22-55 | there is one source page per chunk |
| Transform.SourcesSorted | src/transform.py:22 | source pages are in range and non-decreasing, so page order is preserved |
| Transform.ChunkFrom | src/transform.py:36-55 | chunk j carries the metadata of its non-blank source page |
| Transform.ChunkedCount | src/transform.py:35-49 | the number of chunks is the total number of parts over all pages |
| Transform.SemanticSuccessIgnoresSentence | src/transform.py:26-42 | with a key and a semantic splitter that succeeds on every non-blank page, the sentence splitter is never consulted |
| Transform.NoKeyIgnoresSemantic | src/transform.py:17-26 | without an API key the semantic splitter is never consulted |
| Load.BuildVectors | src/load.py:30-41 | the loop returns the vector records given by `Vectors`, or the first failure |
| Load.VectorsOk | src/load.py:31-41 | building succeeds exactly when every chunk embeds and has a page label |
| Load.VectorAt | src/load.py:33-41 | record i has the chunk's own id, or else `<title>_<first page label>`; it holds the chunk's embedding and the metadata title, page and text |
| Load.VectorsErrPersists | src/load.py:31-41 | a failure on a prefix of the chunks is the failure of the whole call |
| Load.UpsertOverrides | src/load.py:43 | upserting a batch overrides existing records by id and keeps all others |
| Load.UpsertKeys | src/load.py:43 | after an upsert the ids are the old ids plus the batch's ids |
| Load.UpsertLastWins | src/load.py:43 | within a batch, the last record with a given id is the one stored |
| Load.UpsertIdempotent | src/load.py:43 | upserting the same batch twice stores what upserting it once stores |
| Load.VectorIdsIgnoreEmbedder | src/load.py:32-41 | two successful builds over the same chunks, through any two embedders, give every record the same id and metadata |
| Load.UpsertKeysIgnoreEmbedder | src/load.py:31-43 | loading the same chunks through any two embedders stores the same set of ids |
| Load.PineconeStore.ListIndexes | src/load.py:21 | the listed names are exactly the existing indexes |
| Load.PineconeStore.CreateIndex | src/load.py:23-27 | creates the named index with the given dimension and metric; stored records are unchanged |
| Load.PineconeStore.Upsert | src/load.py:43 | updates only the (index, namespace) space, by the upsert rule |
| Load.UpsertChunksToPinecone | src/load.py:10-44 | creates the index (1536, cosine) only if absent. It returns `Vectors` of the chunks. On success it upserts them into the namespace; on failure no record changes |
| Load.UpsertTwice | src/load.py:10-44 | loading the same chunks twice leaves the same index catalogue and records as loading them once |
| Retrieve.CohereRerank | src/retrieve.py:49-75 | empty input gives an empty result with no Cohere call. Otherwise exactly one request is sent (query, node contents, top_n, rerank-multilingual-v3.0) and the result is `Reranked` |
| Retrieve.RebuiltOk | src/retrieve.py:65-73 | rebuilding succeeds exactly when every returned index is a valid Python index into the candidates, negative ones included |
| Retrieve.RebuiltAt | src/retrieve.py:66-72 | result j is the candidate at the j-th returned index, scored with Cohere's relevance score |
| Retrieve.RebuiltFirstFailure | src/retrieve.py:70 | a failure names the first out-of-range index Cohere returned |
| Retrieve.RebuiltErrPersists | src/retrieve.py:66-73 | a failure on a prefix of Cohere's results is the failure of the whole call |
| Retrieve.DistinctBelowBound | src/retrieve.py:65-73 | the counting step of the rerank length bound: distinct indices into n candidates number at most n |
| Retrieve.RerankLengthBound | src/retrieve.py:49-75 | when Cohere returns at most top_n distinct in-range indices, the reranked list is no longer than the candidates, nor than top_n |
| Retrieve.MultiqueryRetrieve | src/retrieve.py:79-105 | the fusion retriever is asked for 3 queries and similarity_top_k. When it raises, that failure is returned and Cohere is never called; otherwise its candidates, and only they, go to the reranker with rerank_top_k |
| Pipeline.AttachFirstTable | src/pipeline.py:21-22 | with tables, the first record gets the `head()` of the first table and every other record is unchanged; with none, the records pass unchanged |
| Pipeline.PipelineEtl | src/pipeline.py:17-32 | an extraction failure stops before any CSV or Pinecone effect. Otherwise the CSVs are written, the index "ragflow" is created if absent, and the splitter's chunks of the table-annotated records are upserted, or a load failure leaves the records unchanged |
| Pipeline.CreateChunksFromPdfAndUpsert | src/ingest_data.py:194-218 | the same as `PipelineEtl`, for the caller's index name |
| Pipeline.PageKeyInjective | src/load.py:34 | the default ids `Page <n>_<n>` differ between pages |
| Pipeline.EtlChunkProvenance | src/pipeline.py:19-24 | every stored chunk of the write path has no id, the title and label of its page, and the first-table preview exactly when it comes from page 1 and some table exists |
| Pipeline.PageChunkIds | src/load.py:34 | chunks without their own id get the id of their page |
| Pipeline.PageKeysSamePage | src/load.py:34 | such ids coincide exactly for chunks of the same page |
| Pipeline.EtlRecordIdsPerPage | src/pipeline.py:24-32 | in the write path, two vector records share an id exactly when their chunks come from the same page |
| Pipeline.PageKeyedUpsert | src/load.py:43 | upserting page-keyed records adds one key per page, holding the page's last record |
| Pipeline.EtlStoredPages | src/pipeline.py:26-32 | after the write path the namespace holds the old keys plus one key per page that produced a chunk, holding that page's last chunk; earlier chunks of the page are overwritten |
| Answer.ContextHoldsPassage | main.py:84 | in the context, each passage sits at its offset and consecutive passages are separated by a blank line |
| Answer.PromptInjective | main.py:85 | for the same passages, different queries give different prompts |
| Answer.IsExitSpelled | main.py:92 | a line ends the session exactly when, stripped, it spells "exit" in any letter case |
| Answer.ExitIgnoresSurroundingSpace | main.py:92 | surrounding whitespace never changes whether a line ends the session |
| Answer.SessionTurnAt | main.py:90-103 | turn k answers input line k |
| Answer.SessionEnds | main.py:90-94 | the loop stops at the first line that does not give a turn, and reports why; running out of lines ends it normally |
| Answer.ReplOutcome | main.py:89-103 | for the console loop: it ends normally exactly when every line was answered; "exit" stops it; a failed retrieval or answer names its line; turn k holds that line's reranked passages and the LLM's answer to its prompt |
| Answer.RunSession | main.py:89-103 | the loop produces the turns and the ending given by `Session` |

The copies of these functions in `src/ingest_data.py` and `main.py` are modelled by the same members:
- `extract_tables_from_pdf` at src/ingest_data.py:25-55;
- `extract_text_with_fallback` at 58-83;
- `split_chunk_semantic_sentence` at 87-144;
- `upsert_chunks_to_pinecone` at 149-191;
- `cohere_rerank` and `multiquery_retrieve` at main.py:40-77.

They are line-for-line the same code.

## Left out

- Reading the PDF file is not modelled: pdfplumber, PyMuPDF rendering at 300 dpi and Tesseract with `vie+eng` are replaced by the given pages and an OCR function of the page index.
- The CSV files are recorded as (path, frame) writes. The `utf-8-sig` encoding, `index=False` and `os.makedirs` are not modelled.
- `to_dict()` of the table preview is not modelled: the preview is kept as the `head()` frame itself.
- Logging, `load_dotenv` and reading API keys from the environment are left out; the keys are parameters. The Pinecone and Cohere keys only authenticate.
- `get_index` is not modelled. That covers the connection to Pinecone, `PineconeVectorStore`, `VectorIndexRetriever` and the paraphrase generation inside `QueryFusionRetriever`. The fusion retriever is a parameter that receives the query, `num_queries` and `similarity_top_k`, and returns the candidates or the reason it raised.
- The internals of the semantic and sentence splitters, of OpenAI embeddings, of Cohere scoring and of the LLM are not modelled; they are parameters.
- Embedding values and relevance scores are opaque reals. The index dimension is not checked against the embedding length.
- Pinecone batch-size limits, network failures of `create_index` and `upsert`, and `print` output of the console loop are left out. The printed 300-character previews are not modelled.
- The semantic splitter's breakpoint settings (buffer 1, percentile 95) are not modelled.
- The `__main__` blocks of `src/pipeline.py`, `src/retrieve.py` and `src/ingest_data.py` are not modelled. They only call the modelled functions with fixed arguments.
- `app.py`, `src/gdrive_ingest.py` and `src/Load_ggdrive.py` are not part of this model.
- Transform.SplitChunkSemanticSentence:
  - the overlap `int(max_tokens * 0.1)` is modelled as `maxTokens / 10`. The two agree for realistic token budgets such as 512 and 1024, but not for every natural number. For very large values, such as 10000000000000019, floating-point rounding makes `int(max_tokens * 0.1)` one larger;
  - `requires maxTokens > 0` reflects that the sentence splitter rejects a non-positive chunk size. It also excludes runs with `max_tokens=0` in which no page reaches the sentence splitter;
  - the default `max_tokens=1024` becomes an explicit argument.
- Extract.ExtractTablesFromPdf: every CSV write is taken to succeed. In the source, `to_csv` raises when the target directory is missing, and only `src/ingest_data.py` creates it. Such a failure would stop `pipeline_etl` before splitting and loading; the model does not capture it.
- Pipeline.PipelineEtl: inherits `requires maxTokens > 0` from the splitter. That also excludes runs with `max_tokens=0` in which no page reaches the sentence splitter (every page blank, or a key set and the semantic splitter succeeding on every page), which the source completes.
- Pipeline.CreateChunksFromPdfAndUpsert: the same inherited `requires maxTokens > 0`, with the same excluded runs.
- Text.Lower: folds ASCII letters only. That is exact for the comparison with "exit", which is all the source uses it for.
- Extract.ExtractTextWithFallback: an OCR exception is not recovered per page; the whole extraction fails, as the code does.
- Load.UpsertChunksToPinecone: an embedding exception aborts the whole load before any upsert, as the code does. It is not skipped per chunk.
- Load.VectorAt: a chunk with an empty `page_labels` fails the load even when it has its own `"id"`. Python evaluates the default argument of `chunk.get("id", ...)` eagerly, and the metadata needs the label anyway.
- Retrieve.CohereRerank: the scorer's own guarantees are not assumed. An index out of Python's range gives an `IndexOutOfRange` error, and negative indices wrap as in Python.
- Load.UpsertTwice: the equality of stored records, not only of ids, assumes that the embedding service returns the same vector for the same text on both runs; `UpsertKeysIgnoreEmbedder` gives the part that holds for any two embedders.
- Load.PineconeStore.Upsert: when one request holds several records with the same id, the last one is taken to win. The source does not settle this; `Pipeline.EtlStoredPages`'s "that page's last chunk" rests on it.
- Load.PineconeStore: the client opens an existing account whose indexes and records are arbitrary; no empty initial store is modelled.
- Default arguments become explicit parameters: `max_tokens=1024` and `namespace="default"` of `pipeline_etl`, `namespace=""` of `create_chunks_from_pdf_and_upsert` and of `upsert_chunks_to_pinecone`, `top_k=5` of `cohere_rerank`, and `similarity_top_k=10`, `rerank_top_k=5` of `multiquery_retrieve`.
- The model name `gpt-4.1-mini` and the OpenAI key of `rag_agent_answer` belong to the `llm` parameter and are not modelled separately.
- Answer.RunSession: the input lines are a finite sequence. End of input, where `input()` raises `EOFError`, is modelled as the normal end `InputExhausted`.
