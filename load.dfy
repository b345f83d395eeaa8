/**
 * The loader: chunks become vector records with deterministic ids and are upserted
 * into a Pinecone index, created first when absent. The embedding model enters as a
 * function (`None` when the embedding call raises); vectors are opaque values that are
 * only copied.
 */
module Load {
  import opened Outcomes
  import opened Text
  import opened Records

  type Embedding = seq<real>
  type Embedder = string -> Option<Embedding>

  /** The index shape the loader creates: text-embedding-3-small vectors under cosine distance. */
  const Dimension: nat := 1536
  const Metric: string := "cosine"

  datatype Metadata = Metadata(title: string, page: nat, text: string)
  datatype VectorRecord = VectorRecord(id: string, values: Embedding, metadata: Metadata)
  datatype IndexSpec = IndexSpec(dimension: nat, metric: string)

  /** Why the vector list could not be built; `chunk` is the 0-based position of the chunk. */
  datatype LoadError = EmbeddingFailed(chunk: nat) | MissingPageLabel(chunk: nat)

  /** `f"{chunk['title']}_{chunk['page_labels'][0]}"` */
  function DefaultId(c: Doc): string
    requires c.pageLabels != []
  {
    c.title + "_" + NatToString(c.pageLabels[0])
  }

  /** `chunk.get("id", DefaultId)`: the explicit id when the chunk carries one. */
  function RecordId(c: Doc): string
    requires c.pageLabels != []
  {
    if c.id.Some? then c.id.value else DefaultId(c)
  }

  /**
   * The `vectors` list, or the failure that stops it: chunks are visited in order and,
   * for each, the embedding is computed before the id and metadata read `page_labels[0]`.
   */
  function Vectors(chunks: seq<Doc>, embed: Embedder): Result<seq<VectorRecord>, LoadError>
    decreases |chunks|
  {
    if chunks == [] then Ok([])
    else
      var n := |chunks| - 1;
      var c := chunks[n];
      match Vectors(chunks[..n], embed)
      case Err(e) => Err(e)
      case Ok(vs) =>
        if embed(c.text).None? then Err(EmbeddingFailed(n))
        else if c.pageLabels == [] then Err(MissingPageLabel(n))
        else Ok(vs + [VectorRecord(RecordId(c), embed(c.text).value,
                                   Metadata(c.title, c.pageLabels[0], c.text))])
  }

  /** The building succeeds exactly when every chunk embeds and has a first page label. */
  lemma {:induction false} VectorsOk(chunks: seq<Doc>, embed: Embedder)
    ensures Vectors(chunks, embed).Ok? <==>
      forall i :: 0 <= i < |chunks| ==> embed(chunks[i].text).Some? && chunks[i].pageLabels != []
  {
    if chunks != [] {
      var n := |chunks| - 1;
      VectorsOk(chunks[..n], embed);
      assert forall i :: 0 <= i < n ==> chunks[..n][i] == chunks[i];
    }
  }

  /**
   * One record per chunk, in chunk order: record i has the chunk's explicit id or
   * title_pageLabels[0], the chunk's embedding, and metadata title, page = pageLabels[0], text.
   */
  lemma {:induction false} VectorAt(chunks: seq<Doc>, embed: Embedder, i: nat)
    requires Vectors(chunks, embed).Ok? && i < |chunks|
    ensures |Vectors(chunks, embed).value| == |chunks|
    ensures embed(chunks[i].text).Some? && chunks[i].pageLabels != []
    ensures Vectors(chunks, embed).value[i] ==
      VectorRecord(RecordId(chunks[i]), embed(chunks[i].text).value,
                   Metadata(chunks[i].title, chunks[i].pageLabels[0], chunks[i].text))
  {
    var n := |chunks| - 1;
    if n > 0 {
      VectorAt(chunks[..n], embed, if i < n then i else 0);
    }
    if i < n {
      assert chunks[..n][i] == chunks[i];
    }
  }

  /** `vectors` built by the loop of `upsert_chunks_to_pinecone`, stopping at the first failure. */
  method BuildVectors(chunks: seq<Doc>, embed: Embedder) returns (r: Result<seq<VectorRecord>, LoadError>)
    ensures r == Vectors(chunks, embed)
  {
    var vectors: seq<VectorRecord> := [];
    for i := 0 to |chunks|
      invariant Vectors(chunks[..i], embed) == Ok(vectors)
    {
      assert chunks[..i + 1][..i] == chunks[..i];
      var chunk := chunks[i];
      var emb := embed(chunk.text);
      if emb.None? {
        VectorsErrPersists(chunks, embed, i + 1);
        return Err(EmbeddingFailed(i));
      }
      if chunk.pageLabels == [] {
        VectorsErrPersists(chunks, embed, i + 1);
        return Err(MissingPageLabel(i));
      }
      var id := if chunk.id.Some? then chunk.id.value
                else chunk.title + "_" + NatToString(chunk.pageLabels[0]);
      vectors := vectors + [VectorRecord(id, emb.value, Metadata(chunk.title, chunk.pageLabels[0], chunk.text))];
    }
    assert chunks[..|chunks|] == chunks;
    return Ok(vectors);
  }

  lemma {:induction false} VectorsErrPersists(chunks: seq<Doc>, embed: Embedder, k: nat)
    requires k <= |chunks| && Vectors(chunks[..k], embed).Err?
    ensures Vectors(chunks, embed) == Vectors(chunks[..k], embed)
  {
    if k < |chunks| {
      var n := |chunks| - 1;
      assert chunks[..n][..k] == chunks[..k];
      VectorsErrPersists(chunks[..n], embed, k);
    } else {
      assert chunks[..k] == chunks;
    }
  }

  /** One namespace after an upsert batch: records are written in order, the last write of an id wins. */
  function ApplyUpsert(m: map<string, VectorRecord>, batch: seq<VectorRecord>): map<string, VectorRecord>
    decreases |batch|
  {
    if batch == [] then m else ApplyUpsert(m[batch[0].id := batch[0]], batch[1..])
  }

  /** An upsert overrides the namespace with the batch's own id -> record map; ids outside the batch keep their records. */
  lemma {:induction false} UpsertOverrides(m: map<string, VectorRecord>, batch: seq<VectorRecord>)
    ensures ApplyUpsert(m, batch) == m + ApplyUpsert(map[], batch)
    decreases |batch|
  {
    if batch != [] {
      var r := batch[0];
      UpsertOverrides(m[r.id := r], batch[1..]);
      UpsertOverrides(map[r.id := r], batch[1..]);
      var rest := ApplyUpsert(map[], batch[1..]);
      assert m[r.id := r] + rest == m + (map[r.id := r] + rest);
    }
  }

  /** The ids present afterwards are the old ones plus the batch's ids. */
  lemma {:induction false} UpsertKeys(m: map<string, VectorRecord>, batch: seq<VectorRecord>)
    ensures ApplyUpsert(m, batch).Keys == m.Keys + set r | r in batch :: r.id
    decreases |batch|
  {
    if batch != [] {
      UpsertKeys(m[batch[0].id := batch[0]], batch[1..]);
      assert batch == [batch[0]] + batch[1..];
      assert (set r | r in batch :: r.id) == {batch[0].id} + set r | r in batch[1..] :: r.id;
    }
  }

  /** The record stored under an id is the last record of the batch with that id. */
  lemma {:induction false} UpsertLastWins(m: map<string, VectorRecord>, batch: seq<VectorRecord>, j: nat)
    requires j < |batch|
    requires forall k :: j < k < |batch| ==> batch[k].id != batch[j].id
    ensures batch[j].id in ApplyUpsert(m, batch) && ApplyUpsert(m, batch)[batch[j].id] == batch[j]
    decreases j
  {
    var rest := batch[1..];
    if j == 0 {
      assert forall r :: r in rest ==> r.id != batch[0].id;
      UpsertKeys(map[], rest);
      UpsertOverrides(m[batch[0].id := batch[0]], rest);
    } else {
      UpsertLastWins(m[batch[0].id := batch[0]], rest, j - 1);
    }
  }

  /** Ids are deterministic, so writing the same batch again changes nothing. */
  lemma UpsertIdempotent(m: map<string, VectorRecord>, batch: seq<VectorRecord>)
    ensures ApplyUpsert(ApplyUpsert(m, batch), batch) == ApplyUpsert(m, batch)
  {
    var b := ApplyUpsert(map[], batch);
    UpsertOverrides(m, batch);
    UpsertOverrides(m + b, batch);
    assert (m + b) + b == m + b;
  }

  /**
   * Record ids and metadata do not depend on the embedding service: two successful builds over
   * the same chunks differ at most in their vector values.
   */
  lemma VectorIdsIgnoreEmbedder(chunks: seq<Doc>, e1: Embedder, e2: Embedder, i: nat)
    requires Vectors(chunks, e1).Ok? && Vectors(chunks, e2).Ok? && i < |chunks|
    ensures |Vectors(chunks, e1).value| == |chunks| && |Vectors(chunks, e2).value| == |chunks|
    ensures Vectors(chunks, e1).value[i].id == Vectors(chunks, e2).value[i].id
    ensures Vectors(chunks, e1).value[i].metadata == Vectors(chunks, e2).value[i].metadata
  {
    VectorAt(chunks, e1, i);
    VectorAt(chunks, e2, i);
  }

  /** Loading the same chunks through two embedding services stores the same set of ids. */
  lemma UpsertKeysIgnoreEmbedder(m: map<string, VectorRecord>, chunks: seq<Doc>, e1: Embedder, e2: Embedder)
    requires Vectors(chunks, e1).Ok? && Vectors(chunks, e2).Ok?
    ensures ApplyUpsert(m, Vectors(chunks, e1).value).Keys == ApplyUpsert(m, Vectors(chunks, e2).value).Keys
  {
    var b1, b2 := Vectors(chunks, e1).value, Vectors(chunks, e2).value;
    UpsertKeys(m, b1);
    UpsertKeys(m, b2);
    VectorsOk(chunks, e1);
    if chunks != [] {
      VectorIdsIgnoreEmbedder(chunks, e1, e2, 0);
    }
    var ids1, ids2 := set r | r in b1 :: r.id, set r | r in b2 :: r.id;
    forall x | x in ids1 ensures x in ids2 {
      var r :| r in b1 && r.id == x;
      var i :| 0 <= i < |b1| && b1[i] == r;
      VectorIdsIgnoreEmbedder(chunks, e1, e2, i);
      assert b2[i] in b2;
    }
    forall x | x in ids2 ensures x in ids1 {
      var r :| r in b2 && r.id == x;
      var i :| 0 <= i < |b2| && b2[i] == r;
      VectorIdsIgnoreEmbedder(chunks, e1, e2, i);
      assert b1[i] in b1;
    }
  }

  /**
   * The vector database as a client opened on an existing account sees it: the indexes that
   * exist, and each (index, namespace)'s id -> record map, whatever they already hold.
   */
  class PineconeStore {
    var indexes: map<string, IndexSpec>
    var spaces: map<(string, string), map<string, VectorRecord>>

    /** The records of one namespace of one index; empty when never written. */
    function Space(index: string, namespace: string): map<string, VectorRecord>
      reads this
    {
      if (index, namespace) in spaces then spaces[(index, namespace)] else map[]
    }

    /** `pc.list_indexes().names()` */
    method ListIndexes() returns (names: set<string>)
      ensures names == indexes.Keys
    {
      names := indexes.Keys;
    }

    /** `pc.create_index(name, dimension, metric)`; the name must be new. */
    method CreateIndex(name: string, dimension: nat, metric: string)
      requires name !in indexes
      modifies this
      ensures indexes == old(indexes)[name := IndexSpec(dimension, metric)]
      ensures spaces == old(spaces)
    {
      indexes := indexes[name := IndexSpec(dimension, metric)];
    }

    /** `pc.Index(name).upsert(vectors=batch, namespace=namespace)` */
    method Upsert(name: string, namespace: string, batch: seq<VectorRecord>)
      requires name in indexes
      modifies this
      ensures indexes == old(indexes)
      ensures spaces == old(spaces)[(name, namespace) := ApplyUpsert(old(Space(name, namespace)), batch)]
    {
      spaces := spaces[(name, namespace) := ApplyUpsert(Space(name, namespace), batch)];
    }
  }

  /**
   * `upsert_chunks_to_pinecone`: create the index at 1536 dimensions and cosine metric when
   * its name is absent (an existing index is left as it is), build one record per chunk, and
   * send them in one upsert. A failure while building leaves every namespace untouched but
   * keeps an index created on the way. Returns the batch that was sent.
   */
  method UpsertChunksToPinecone(store: PineconeStore, chunks: seq<Doc>, indexName: string,
                                namespace: string, embed: Embedder)
    returns (r: Result<seq<VectorRecord>, LoadError>)
    modifies store
    ensures store.indexes ==
      if indexName in old(store.indexes) then old(store.indexes)
      else old(store.indexes)[indexName := IndexSpec(Dimension, Metric)]
    ensures r == Vectors(chunks, embed)
    ensures r.Ok? ==>
      store.spaces == old(store.spaces)[(indexName, namespace) :=
                                          ApplyUpsert(old(store.Space(indexName, namespace)), r.value)]
    ensures r.Err? ==> store.spaces == old(store.spaces)
  {
    var names := store.ListIndexes();
    if indexName !in names {
      store.CreateIndex(indexName, Dimension, Metric);
    }
    r := BuildVectors(chunks, embed);
    if r.Err? {
      return;
    }
    store.Upsert(indexName, namespace, r.value);
  }

  /** Running the loader twice on the same chunks leaves the store as one run left it. */
  method UpsertTwice(store: PineconeStore, chunks: seq<Doc>, indexName: string,
                     namespace: string, embed: Embedder)
    modifies store
    ensures store.indexes ==
      if indexName in old(store.indexes) then old(store.indexes)
      else old(store.indexes)[indexName := IndexSpec(Dimension, Metric)]
    ensures Vectors(chunks, embed).Ok? ==>
      store.spaces ==
        old(store.spaces)[(indexName, namespace) :=
          ApplyUpsert(old(store.Space(indexName, namespace)), Vectors(chunks, embed).value)]
    ensures Vectors(chunks, embed).Err? ==> store.spaces == old(store.spaces)
  {
    var first := UpsertChunksToPinecone(store, chunks, indexName, namespace, embed);
    var second := UpsertChunksToPinecone(store, chunks, indexName, namespace, embed);
    if first.Ok? {
      UpsertIdempotent(old(store.Space(indexName, namespace)), first.value);
    }
  }
}
