/**
 * The read path: a fusion retriever proposes candidates, and the Cohere reranker
 * reorders them. Both services enter as functions: the fusion retriever (query
 * paraphrasing, per-paraphrase search and merging are library code) and the rerank
 * scorer, which answers a request with (index, relevance score) pairs or fails.
 */
module Retrieve {
  import opened Outcomes

  /** A retrieved text node; `get_content()` is its content. */
  datatype Node = Node(nodeId: string, content: string)
  datatype NodeWithScore = NodeWithScore(node: Node, score: real)

  /** One entry of `results.results`: a position in the submitted documents and its relevance. */
  datatype ScoredIndex = ScoredIndex(index: int, relevanceScore: real)

  datatype RerankRequest = RerankRequest(query: string, documents: seq<string>, topN: int, model: string)

  const RerankModel: string := "rerank-multilingual-v3.0"

  /** Paraphrases generated by the fusion retriever. */
  const NumQueries: nat := 3

  type Scorer = RerankRequest -> Result<seq<ScoredIndex>, string>

  /**
   * `QueryFusionRetriever(...).retrieve(query)` for (query, num_queries, similarity_top_k):
   * the merged candidates, or the reason the search (Pinecone or the paraphrasing model) raised.
   */
  type FusionRetriever = (string, nat, int) -> Result<seq<NodeWithScore>, string>

  /** Why the read path fails: the fusion search raised, the scorer raised, or a result index is unreadable. */
  datatype RetrieveError = FusionFailed(search: string) | ScorerFailed(reason: string) | IndexOutOfRange(index: int)

  /** `[n.node.get_content() for n in nodes]` */
  function Contents(nodes: seq<NodeWithScore>): seq<string> {
    seq(|nodes|, i requires 0 <= i < |nodes| => nodes[i].node.content)
  }

  /** The element Python's `nodes[i]` reads from a list of length n: negative indices count from the end. */
  function PyIndex(n: nat, i: int): Option<nat> {
    if 0 <= i < n then Some(i)
    else if 0 <= n + i && i < 0 then Some(n + i)
    else None
  }

  /** The reranked list rebuilt from the scorer's results, or the first index Python cannot read. */
  function Rebuilt(nodes: seq<NodeWithScore>, results: seq<ScoredIndex>): Result<seq<NodeWithScore>, RetrieveError>
    decreases |results|
  {
    if results == [] then Ok([])
    else
      var n := |results| - 1;
      var r := results[n];
      match Rebuilt(nodes, results[..n])
      case Err(e) => Err(e)
      case Ok(prev) =>
        match PyIndex(|nodes|, r.index)
        case None => Err(IndexOutOfRange(r.index))
        case Some(k) =>
          assert k < |nodes|;
          Ok(prev + [NodeWithScore(nodes[k].node, r.relevanceScore)])
  }

  /** The one request `cohere_rerank` sends for a non-empty candidate list. */
  function RequestFor(query: string, nodes: seq<NodeWithScore>, topK: int): RerankRequest {
    RerankRequest(query, Contents(nodes), topK, RerankModel)
  }

  /** What `cohere_rerank` returns: [] for no candidates; otherwise the scorer's failure or the rebuilt list. */
  function Reranked(query: string, nodes: seq<NodeWithScore>, topK: int, scorer: Scorer)
    : Result<seq<NodeWithScore>, RetrieveError>
  {
    if nodes == [] then Ok([])
    else
      match scorer(RequestFor(query, nodes, topK))
      case Err(reason) => Err(ScorerFailed(reason))
      case Ok(results) => Rebuilt(nodes, results)
  }

  /**
   * `cohere_rerank`. `requests` lists the calls made to the scoring service: none for an
   * empty candidate list, else one with the candidates' contents in candidate order and
   * top_n = topK.
   */
  method CohereRerank(query: string, nodes: seq<NodeWithScore>, topK: int, scorer: Scorer)
    returns (reranked: Result<seq<NodeWithScore>, RetrieveError>, requests: seq<RerankRequest>)
    ensures nodes == [] ==> reranked == Ok([]) && requests == []
    ensures nodes != [] ==> requests == [RerankRequest(query, Contents(nodes), topK, RerankModel)]
    ensures reranked == Reranked(query, nodes, topK, scorer)
  {
    if nodes == [] {
      return Ok([]), [];
    }
    var docs := seq(|nodes|, i requires 0 <= i < |nodes| => nodes[i].node.content);
    var request := RerankRequest(query, docs, topK, RerankModel);
    requests := [request];
    var response := scorer(request);
    if response.Err? {
      return Err(ScorerFailed(response.error)), requests;
    }
    var results := response.value;
    var rerankedNodes: seq<NodeWithScore> := [];
    for k := 0 to |results|
      invariant Rebuilt(nodes, results[..k]) == Ok(rerankedNodes)
    {
      assert results[..k + 1][..k] == results[..k];
      var idx := results[k].index;
      if !(-|nodes| <= idx < |nodes|) {
        RebuiltErrPersists(nodes, results, k + 1);
        return Err(IndexOutOfRange(idx)), requests;
      }
      var pos := if idx < 0 then |nodes| + idx else idx;
      rerankedNodes := rerankedNodes + [NodeWithScore(nodes[pos].node, results[k].relevanceScore)];
    }
    assert results[..|results|] == results;
    return Ok(rerankedNodes), requests;
  }

  lemma {:induction false} RebuiltErrPersists(nodes: seq<NodeWithScore>, results: seq<ScoredIndex>, k: nat)
    requires k <= |results| && Rebuilt(nodes, results[..k]).Err?
    ensures Rebuilt(nodes, results) == Rebuilt(nodes, results[..k])
  {
    if k < |results| {
      var n := |results| - 1;
      assert results[..n][..k] == results[..k];
      RebuiltErrPersists(nodes, results[..n], k);
    } else {
      assert results[..k] == results;
    }
  }

  /** Rebuilding succeeds exactly when Python can read every result index. */
  lemma {:induction false} RebuiltOk(nodes: seq<NodeWithScore>, results: seq<ScoredIndex>)
    ensures Rebuilt(nodes, results).Ok? <==>
      forall j :: 0 <= j < |results| ==> PyIndex(|nodes|, results[j].index).Some?
  {
    if results != [] {
      var n := |results| - 1;
      RebuiltOk(nodes, results[..n]);
      assert forall j :: 0 <= j < n ==> results[..n][j] == results[j];
    }
  }

  /**
   * Output element j is the candidate node the j-th result points at, scored with that
   * result's relevance score: one element per result, in the scorer's order, and the
   * retrieval scores are gone.
   */
  lemma {:induction false} RebuiltAt(nodes: seq<NodeWithScore>, results: seq<ScoredIndex>, j: nat)
    requires Rebuilt(nodes, results).Ok? && j < |results|
    ensures |Rebuilt(nodes, results).value| == |results|
    ensures PyIndex(|nodes|, results[j].index).Some?
    ensures var k := PyIndex(|nodes|, results[j].index).value;
            k < |nodes| &&
            Rebuilt(nodes, results).value[j] == NodeWithScore(nodes[k].node, results[j].relevanceScore)
  {
    var n := |results| - 1;
    if n > 0 {
      RebuiltAt(nodes, results[..n], if j < n then j else 0);
    }
    if j < n {
      assert results[..n][j] == results[j];
    }
  }

  /** A failure names the first result whose index Python cannot read. */
  lemma {:induction false} RebuiltFirstFailure(nodes: seq<NodeWithScore>, results: seq<ScoredIndex>)
    requires Rebuilt(nodes, results).Err?
    ensures exists k :: (0 <= k < |results| && PyIndex(|nodes|, results[k].index).None? &&
                         Rebuilt(nodes, results).error == IndexOutOfRange(results[k].index) &&
                         forall j :: 0 <= j < k ==> PyIndex(|nodes|, results[j].index).Some?)
  {
    var n := |results| - 1;
    var init := results[..n];
    assert forall j :: 0 <= j < n ==> init[j] == results[j];
    if Rebuilt(nodes, init).Err? {
      RebuiltFirstFailure(nodes, init);
    } else {
      RebuiltOk(nodes, init);
    }
  }

  predicate DistinctIndices(results: seq<ScoredIndex>) {
    forall i, j :: 0 <= i < j < |results| ==> results[i].index != results[j].index
  }

  /** A list of distinct numbers drawn from [0, n) has at most n elements. */
  lemma {:induction false} DistinctBelowBound(xs: seq<int>, n: nat)
    requires forall i, j :: 0 <= i < j < |xs| ==> xs[i] != xs[j]
    requires forall i :: 0 <= i < |xs| ==> 0 <= xs[i] < n
    ensures |xs| <= n
    decreases |xs|
  {
    if xs != [] {
      var last := xs[|xs| - 1];
      var init := xs[..|xs| - 1];
      // Move a possible n-1 into the slot `last` left free; the rest then lies in [0, n-1).
      var ys := seq(|init|, i requires 0 <= i < |init| => if init[i] == n - 1 then last else init[i]);
      forall i, j | 0 <= i < j < |ys| ensures ys[i] != ys[j] {
        assert init[i] == xs[i] && init[j] == xs[j];
        assert xs[i] != last && xs[j] != last;
      }
      forall i | 0 <= i < |ys| ensures 0 <= ys[i] < n - 1 {
        assert init[i] == xs[i] && xs[i] != last;
      }
      DistinctBelowBound(ys, n - 1);
    }
  }

  /**
   * When the scorer honours top_n and returns distinct in-range indices, the reranked list
   * has at most min(topK, |nodes|) elements.
   */
  lemma RerankLengthBound(query: string, nodes: seq<NodeWithScore>, topK: int, scorer: Scorer)
    requires nodes != [] ==>
      var response := scorer(RequestFor(query, nodes, topK));
      response.Ok? ==>
        |response.value| <= topK && DistinctIndices(response.value) &&
        forall j :: 0 <= j < |response.value| ==> 0 <= response.value[j].index < |nodes|
    ensures Reranked(query, nodes, topK, scorer).Ok? ==>
      |Reranked(query, nodes, topK, scorer).value| <= |nodes| &&
      (nodes != [] ==> |Reranked(query, nodes, topK, scorer).value| <= topK)
  {
    if nodes != [] && scorer(RequestFor(query, nodes, topK)).Ok? {
      var results := scorer(RequestFor(query, nodes, topK)).value;
      RebuiltOk(nodes, results);
      if results != [] {
        RebuiltAt(nodes, results, 0);
      }
      var xs := seq(|results|, i requires 0 <= i < |results| => results[i].index);
      DistinctBelowBound(xs, |nodes|);
    }
  }

  /** What `multiquery_retrieve` returns: the fusion search's failure, or its candidates reranked. */
  function Retrieved(query: string, similarityTopK: int, rerankTopK: int, fusion: FusionRetriever, scorer: Scorer)
    : Result<seq<NodeWithScore>, RetrieveError>
  {
    match fusion(query, NumQueries, similarityTopK)
    case Err(reason) => Err(FusionFailed(reason))
    case Ok(candidates) => Reranked(query, candidates, rerankTopK, scorer)
  }

  /**
   * `multiquery_retrieve`: the fusion retriever runs with three paraphrases and
   * similarity_top_k. When it raises, the exception propagates and Cohere is never called;
   * otherwise its candidate list goes unchanged into the reranker.
   */
  method MultiqueryRetrieve(query: string, similarityTopK: int, rerankTopK: int,
                            fusion: FusionRetriever, scorer: Scorer)
    returns (topNodes: Result<seq<NodeWithScore>, RetrieveError>, requests: seq<RerankRequest>)
    ensures fusion(query, NumQueries, similarityTopK).Err? ==>
              topNodes == Err(FusionFailed(fusion(query, NumQueries, similarityTopK).error)) && requests == []
    ensures fusion(query, NumQueries, similarityTopK).Ok? ==>
              var candidates := fusion(query, NumQueries, similarityTopK).value;
              topNodes == Reranked(query, candidates, rerankTopK, scorer) &&
              requests == (if candidates == [] then [] else [RequestFor(query, candidates, rerankTopK)])
    ensures topNodes == Retrieved(query, similarityTopK, rerankTopK, fusion, scorer)
  {
    var candidateNodes := fusion(query, 3, similarityTopK);
    if candidateNodes.Err? {
      return Err(FusionFailed(candidateNodes.error)), [];
    }
    topNodes, requests := CohereRerank(query, candidateNodes.value, rerankTopK, scorer);
  }
}
