/**
 * The chunking driver: page records in, chunks out. The semantic and sentence
 * splitters are library code and enter as functions:
 *   semantic(i, text)  what the semantic splitter returns for the page at position i,
 *                      or None when it raises (the attempt index lets each call fail
 *                      independently, as a network call can);
 *   sentence(text, chunkSize, chunkOverlap)  the sentence splitter's parts.
 */
module Transform {
  import opened Outcomes
  import opened Text
  import opened Records

  type SemanticSplitter = (nat, string) -> Option<seq<string>>
  type SentenceSplitter = (string, nat, nat) -> seq<string>

  /** `int(max_tokens * 0.1)`, exact for every realistic token budget. */
  function Overlap(maxTokens: nat): nat {
    maxTokens / 10
  }

  /** A chunk cut from `page`: its own text, the page's title, labels and tables, and no id. */
  function ChunkOf(page: Doc, text: string): Doc {
    Doc(None, page.title, text, page.pageLabels, page.tables)
  }

  function ChunksOf(page: Doc, parts: seq<string>): seq<Doc> {
    seq(|parts|, j requires 0 <= j < |parts| => ChunkOf(page, parts[j]))
  }

  /**
   * The parts page i is cut into: the semantic splitter's nodes when an API key is given
   * and the splitter succeeds, otherwise the sentence splitter's windows.
   */
  function PageParts(maxTokens: nat, apiKey: Option<string>, semantic: SemanticSplitter,
                     sentence: SentenceSplitter, i: nat, text: string): seq<string>
  {
    if Truthy(apiKey) && semantic(i, text).Some? then semantic(i, text).value
    else sentence(text, maxTokens, Overlap(maxTokens))
  }

  /** What page i contributes: nothing when blank, else one chunk per part. */
  function PageChunks(maxTokens: nat, apiKey: Option<string>, semantic: SemanticSplitter,
                      sentence: SentenceSplitter, i: nat, page: Doc): seq<Doc>
  {
    if IsBlank(page.text) then []
    else ChunksOf(page, PageParts(maxTokens, apiKey, semantic, sentence, i, page.text))
  }

  /** The list `split_chunk_semantic_sentence` returns. */
  function Chunked(maxTokens: nat, apiKey: Option<string>, semantic: SemanticSplitter,
                   sentence: SentenceSplitter, pages: seq<Doc>): seq<Doc>
    decreases |pages|
  {
    if pages == [] then []
    else
      var n := |pages| - 1;
      Chunked(maxTokens, apiKey, semantic, sentence, pages[..n]) +
        PageChunks(maxTokens, apiKey, semantic, sentence, n, pages[n])
  }

  /** The inner `for` of either branch: append one chunk per part, in order. */
  method AppendChunks(finalChunks: seq<Doc>, page: Doc, parts: seq<string>) returns (r: seq<Doc>)
    ensures r == finalChunks + ChunksOf(page, parts)
  {
    r := finalChunks;
    for j := 0 to |parts|
      invariant r == finalChunks + ChunksOf(page, parts[..j])
    {
      r := r + [ChunkOf(page, parts[j])];
    }
    assert parts[..|parts|] == parts;
  }

  /**
   * `split_chunk_semantic_sentence`: per page, skip blank text, try the semantic splitter
   * when a key is given and keep its nodes, else fall back to the sentence splitter.
   */
  method SplitChunkSemanticSentence(pages: seq<Doc>, maxTokens: nat, apiKey: Option<string>,
                                    semantic: SemanticSplitter, sentence: SentenceSplitter)
    returns (finalChunks: seq<Doc>)
    requires maxTokens > 0
    ensures finalChunks == Chunked(maxTokens, apiKey, semantic, sentence, pages)
  {
    finalChunks := [];
    var useSemantic := Truthy(apiKey);
    for i := 0 to |pages|
      invariant finalChunks == Chunked(maxTokens, apiKey, semantic, sentence, pages[..i])
    {
      assert pages[..i + 1][..i] == pages[..i];
      assert Chunked(maxTokens, apiKey, semantic, sentence, pages[..i + 1]) ==
             finalChunks + PageChunks(maxTokens, apiKey, semantic, sentence, i, pages[i]);
      var c := pages[i];
      var text := c.text;
      if Strip(text) == "" {
        continue;
      }
      if useSemantic {
        var attempt := semantic(i, text);
        if attempt.Some? {
          finalChunks := AppendChunks(finalChunks, c, attempt.value);
          continue;
        }
      }
      finalChunks := AppendChunks(finalChunks, c, sentence(text, maxTokens, Overlap(maxTokens)));
    }
    assert pages[..|pages|] == pages;
  }

  /** A chunk carries its page's title, labels and tables, and no explicit id. */
  predicate FromPage(chunk: Doc, page: Doc) {
    chunk.id == None && chunk.title == page.title &&
    chunk.pageLabels == page.pageLabels && chunk.tables == page.tables
  }

  /** For each chunk of `Chunked`, the position of the page it was cut from. */
  function Sources(maxTokens: nat, apiKey: Option<string>, semantic: SemanticSplitter,
                   sentence: SentenceSplitter, pages: seq<Doc>): seq<nat>
    decreases |pages|
  {
    if pages == [] then []
    else
      var n := |pages| - 1;
      Sources(maxTokens, apiKey, semantic, sentence, pages[..n]) +
        seq(|PageChunks(maxTokens, apiKey, semantic, sentence, n, pages[n])|, _ => n)
  }

  /** One source position per chunk. */
  lemma {:induction false} SourcesLength(maxTokens: nat, apiKey: Option<string>, semantic: SemanticSplitter,
                                         sentence: SentenceSplitter, pages: seq<Doc>)
    ensures |Sources(maxTokens, apiKey, semantic, sentence, pages)| == |Chunked(maxTokens, apiKey, semantic, sentence, pages)|
  {
    if pages != [] {
      SourcesLength(maxTokens, apiKey, semantic, sentence, pages[..|pages| - 1]);
    }
  }

  /** The page positions of the chunks never decrease, and all lie within the input. */
  lemma {:induction false} SourcesSorted(maxTokens: nat, apiKey: Option<string>, semantic: SemanticSplitter,
                                         sentence: SentenceSplitter, pages: seq<Doc>)
    ensures forall j :: 0 <= j < |Sources(maxTokens, apiKey, semantic, sentence, pages)| ==>
              Sources(maxTokens, apiKey, semantic, sentence, pages)[j] < |pages|
    ensures forall j, k :: 0 <= j <= k < |Sources(maxTokens, apiKey, semantic, sentence, pages)| ==>
              Sources(maxTokens, apiKey, semantic, sentence, pages)[j] <=
              Sources(maxTokens, apiKey, semantic, sentence, pages)[k]
  {
    if pages != [] {
      var n := |pages| - 1;
      SourcesSorted(maxTokens, apiKey, semantic, sentence, pages[..n]);
      var src0 := Sources(maxTokens, apiKey, semantic, sentence, pages[..n]);
      var tail := seq(|PageChunks(maxTokens, apiKey, semantic, sentence, n, pages[n])|, _ => n);
      var src := src0 + tail;
      assert src == Sources(maxTokens, apiKey, semantic, sentence, pages);
      assert |pages[..n]| == n;
      forall j | 0 <= j < |src| ensures src[j] <= n {
        if j < |src0| {
          assert src[j] == src0[j];
          assert src0[j] < n;
        } else {
          assert src[j] == tail[j - |src0|];
          assert tail[j - |src0|] == n;
        }
      }
      forall j, k | 0 <= j <= k < |src| ensures src[j] <= src[k] {
        if k < |src0| {
          assert src[j] == src0[j] && src[k] == src0[k];
        } else {
          assert src[k] == tail[k - |src0|];
          assert src[j] <= n;
        }
      }
    }
  }

  /** Chunk j is cut from the non-blank page its source position names, and carries that page's fields. */
  lemma {:induction false} ChunkFrom(maxTokens: nat, apiKey: Option<string>, semantic: SemanticSplitter,
                                     sentence: SentenceSplitter, pages: seq<Doc>, j: nat)
    requires j < |Chunked(maxTokens, apiKey, semantic, sentence, pages)|
    ensures |Sources(maxTokens, apiKey, semantic, sentence, pages)| == |Chunked(maxTokens, apiKey, semantic, sentence, pages)|
    ensures var src := Sources(maxTokens, apiKey, semantic, sentence, pages);
            src[j] < |pages| && !IsBlank(pages[src[j]].text) &&
            FromPage(Chunked(maxTokens, apiKey, semantic, sentence, pages)[j], pages[src[j]])
  {
    var n := |pages| - 1;
    var init := pages[..n];
    SourcesLength(maxTokens, apiKey, semantic, sentence, pages);
    SourcesLength(maxTokens, apiKey, semantic, sentence, init);
    var cs0 := Chunked(maxTokens, apiKey, semantic, sentence, init);
    var src0 := Sources(maxTokens, apiKey, semantic, sentence, init);
    var block := PageChunks(maxTokens, apiKey, semantic, sentence, n, pages[n]);
    assert Chunked(maxTokens, apiKey, semantic, sentence, pages) == cs0 + block;
    assert Sources(maxTokens, apiKey, semantic, sentence, pages) == src0 + seq(|block|, _ => n);
    if j < |cs0| {
      ChunkFrom(maxTokens, apiKey, semantic, sentence, init, j);
      assert init[src0[j]] == pages[src0[j]];
    }
  }

  /**
   * Provenance and order: every chunk comes from a non-blank page and carries that page's
   * title, labels and tables; the source positions never decrease, so all chunks of page i
   * come before those of any later page.
   */
  lemma {:induction false} ChunkedProvenance(maxTokens: nat, apiKey: Option<string>, semantic: SemanticSplitter,
                          sentence: SentenceSplitter, pages: seq<Doc>)
    ensures var cs := Chunked(maxTokens, apiKey, semantic, sentence, pages);
            var src := Sources(maxTokens, apiKey, semantic, sentence, pages);
            |src| == |cs| &&
            (forall j :: 0 <= j < |cs| ==>
               src[j] < |pages| && !IsBlank(pages[src[j]].text) && FromPage(cs[j], pages[src[j]])) &&
            (forall j, k :: 0 <= j <= k < |src| ==> src[j] <= src[k])
  {
    SourcesLength(maxTokens, apiKey, semantic, sentence, pages);
    SourcesSorted(maxTokens, apiKey, semantic, sentence, pages);
    forall j | 0 <= j < |Chunked(maxTokens, apiKey, semantic, sentence, pages)|
      ensures var src := Sources(maxTokens, apiKey, semantic, sentence, pages);
              src[j] < |pages| && !IsBlank(pages[src[j]].text) &&
              FromPage(Chunked(maxTokens, apiKey, semantic, sentence, pages)[j], pages[src[j]])
    {
      ChunkFrom(maxTokens, apiKey, semantic, sentence, pages, j);
    }
  }


  /** The number of parts the chosen splitter returns, summed over the non-blank pages. */
  function PartTotal(maxTokens: nat, apiKey: Option<string>, semantic: SemanticSplitter,
                     sentence: SentenceSplitter, pages: seq<Doc>): nat
    decreases |pages|
  {
    if pages == [] then 0
    else
      var n := |pages| - 1;
      PartTotal(maxTokens, apiKey, semantic, sentence, pages[..n]) +
        (if IsBlank(pages[n].text) then 0
         else |PageParts(maxTokens, apiKey, semantic, sentence, n, pages[n].text)|)
  }

  /** One chunk per part: the output length is the total number of parts of the non-blank pages. */
  lemma {:induction false} ChunkedCount(maxTokens: nat, apiKey: Option<string>, semantic: SemanticSplitter,
                                        sentence: SentenceSplitter, pages: seq<Doc>)
    ensures |Chunked(maxTokens, apiKey, semantic, sentence, pages)| ==
            PartTotal(maxTokens, apiKey, semantic, sentence, pages)
  {
    if pages != [] {
      ChunkedCount(maxTokens, apiKey, semantic, sentence, pages[..|pages| - 1]);
    }
  }

  /** The chunks of the first k pages are a prefix of the whole output. */
  lemma {:induction false} ChunkedPrefix(maxTokens: nat, apiKey: Option<string>, semantic: SemanticSplitter,
                                         sentence: SentenceSplitter, pages: seq<Doc>, k: nat)
    requires k <= |pages|
    ensures |Chunked(maxTokens, apiKey, semantic, sentence, pages[..k])| <=
            |Chunked(maxTokens, apiKey, semantic, sentence, pages)|
    ensures Chunked(maxTokens, apiKey, semantic, sentence, pages)[..|Chunked(maxTokens, apiKey, semantic, sentence, pages[..k])|] ==
            Chunked(maxTokens, apiKey, semantic, sentence, pages[..k])
    decreases |pages| - k
  {
    if k < |pages| {
      var n := |pages| - 1;
      assert pages[..n][..k] == pages[..k];
      ChunkedPrefix(maxTokens, apiKey, semantic, sentence, pages[..n], k);
      var pre := Chunked(maxTokens, apiKey, semantic, sentence, pages[..k]);
      var mid := Chunked(maxTokens, apiKey, semantic, sentence, pages[..n]);
      var block := PageChunks(maxTokens, apiKey, semantic, sentence, n, pages[n]);
      assert Chunked(maxTokens, apiKey, semantic, sentence, pages) == mid + block;
      assert (mid + block)[..|pre|] == mid[..|pre|];
    } else {
      assert pages[..k] == pages;
    }
  }


  /**
   * Page i's block of the output starts after the chunks of pages 0..i-1 and is decided by
   * page i alone: nothing for blank text; exactly the semantic nodes when a key is given and
   * the semantic splitter succeeds on that page; otherwise the sentence splitter's windows
   * of size maxTokens with a tenth of it as overlap. A semantic failure on one page changes
   * only that page's block.
   */
  lemma PageBlock(maxTokens: nat, apiKey: Option<string>, semantic: SemanticSplitter,
                  sentence: SentenceSplitter, pages: seq<Doc>, i: nat)
    requires i < |pages|
    ensures var all := Chunked(maxTokens, apiKey, semantic, sentence, pages);
            var start := |Chunked(maxTokens, apiKey, semantic, sentence, pages[..i])|;
            var page := pages[i];
            var block :=
              if IsBlank(page.text) then []
              else if Truthy(apiKey) && semantic(i, page.text).Some? then ChunksOf(page, semantic(i, page.text).value)
              else ChunksOf(page, sentence(page.text, maxTokens, maxTokens / 10));
            start + |block| <= |all| && all[start..start + |block|] == block
  {
    PageBlockAt(maxTokens, apiKey, semantic, sentence, pages, i);
  }

  lemma PageBlockAt(maxTokens: nat, apiKey: Option<string>, semantic: SemanticSplitter,
                    sentence: SentenceSplitter, pages: seq<Doc>, i: nat)
    requires i < |pages|
    ensures |Chunked(maxTokens, apiKey, semantic, sentence, pages[..i])| +
              |PageChunks(maxTokens, apiKey, semantic, sentence, i, pages[i])| <=
            |Chunked(maxTokens, apiKey, semantic, sentence, pages)|
    ensures Chunked(maxTokens, apiKey, semantic, sentence, pages)
              [|Chunked(maxTokens, apiKey, semantic, sentence, pages[..i])|..
               |Chunked(maxTokens, apiKey, semantic, sentence, pages[..i])| +
                 |PageChunks(maxTokens, apiKey, semantic, sentence, i, pages[i])|] ==
            PageChunks(maxTokens, apiKey, semantic, sentence, i, pages[i])
  {
    var all := Chunked(maxTokens, apiKey, semantic, sentence, pages);
    var pre := Chunked(maxTokens, apiKey, semantic, sentence, pages[..i]);
    var block := PageChunks(maxTokens, apiKey, semantic, sentence, i, pages[i]);
    assert pages[..i + 1][..i] == pages[..i];
    assert pages[..i + 1][i] == pages[i];
    var pre1 := Chunked(maxTokens, apiKey, semantic, sentence, pages[..i + 1]);
    assert pre1 == pre + block;
    ChunkedPrefix(maxTokens, apiKey, semantic, sentence, pages, i + 1);
    assert all[..|pre1|] == pre1;
    assert all[|pre|..|pre| + |block|] == all[..|pre1|][|pre|..];
  }


  /** When the semantic splitter succeeds on every non-blank page, the sentence splitter is never used. */
  lemma {:induction false} SemanticSuccessIgnoresSentence(maxTokens: nat, apiKey: Option<string>,
                                                          semantic: SemanticSplitter,
                                                          sentence1: SentenceSplitter, sentence2: SentenceSplitter,
                                                          pages: seq<Doc>)
    requires Truthy(apiKey)
    requires forall i :: 0 <= i < |pages| && !IsBlank(pages[i].text) ==> semantic(i, pages[i].text).Some?
    ensures Chunked(maxTokens, apiKey, semantic, sentence1, pages) ==
            Chunked(maxTokens, apiKey, semantic, sentence2, pages)
  {
    if pages != [] {
      var n := |pages| - 1;
      assert forall i :: 0 <= i < n ==> pages[..n][i] == pages[i];
      SemanticSuccessIgnoresSentence(maxTokens, apiKey, semantic, sentence1, sentence2, pages[..n]);
    }
  }

  /** Without an API key the semantic splitter is never consulted. */
  lemma {:induction false} NoKeyIgnoresSemantic(maxTokens: nat, apiKey: Option<string>,
                                                semantic1: SemanticSplitter, semantic2: SemanticSplitter,
                                                sentence: SentenceSplitter, pages: seq<Doc>)
    requires !Truthy(apiKey)
    ensures Chunked(maxTokens, apiKey, semantic1, sentence, pages) ==
            Chunked(maxTokens, apiKey, semantic2, sentence, pages)
  {
    if pages != [] {
      NoKeyIgnoresSemantic(maxTokens, apiKey, semantic1, semantic2, sentence, pages[..|pages| - 1]);
    }
  }
}
