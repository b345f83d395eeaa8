/**
 * The question-answering front end: the prompt handed to the answering model and the
 * interactive session that retrieves, reranks and answers one question per input line.
 */
module Answer {
  import opened Outcomes
  import opened Text
  import opened Retrieve

  /** The fixed text that opens every prompt, up to the quote before the question. */
  const PromptLead: string := "Dựa trên các đoạn sau, hãy trả lời câu hỏi: '"

  /** What closes the question and separates it from the context. */
  const PromptGap: string := "'\n\n"

  /** Separator between two passages of the context. */
  const PassageSeparator: string := "\n\n"

  /** The session's retrieval settings. */
  const SessionSimilarityTopK: int := 10
  const SessionRerankTopK: int := 5

  /** A completion call: the answer text, or None when the call raises. */
  type Llm = string -> Option<string>

  /** The passages of the ranked nodes, in rank order, separated by blank lines. */
  function Context(nodes: seq<NodeWithScore>): string {
    Join(PassageSeparator, Contents(nodes))
  }

  /** Passage i sits in the context at its offset, and a blank line runs from its end to the next passage. */
  lemma ContextHoldsPassage(nodes: seq<NodeWithScore>, i: nat)
    requires i < |nodes|
    ensures var at := Offset(PassageSeparator, Contents(nodes), i);
            at + |nodes[i].node.content| <= |Context(nodes)| &&
            Context(nodes)[at..at + |nodes[i].node.content|] == nodes[i].node.content
    ensures i < |nodes| - 1 ==>
              var end := Offset(PassageSeparator, Contents(nodes), i) + |nodes[i].node.content|;
              Offset(PassageSeparator, Contents(nodes), i + 1) == end + |PassageSeparator| &&
              end + |PassageSeparator| <= |Context(nodes)| &&
              Context(nodes)[end..end + |PassageSeparator|] == PassageSeparator
  {
    var parts := Contents(nodes);
    assert parts[i] == nodes[i].node.content;
    JoinAt(PassageSeparator, parts, i);
  }

  /** The prompt: the lead, the question, the closing quote and a blank line, then the context. */
  function Prompt(query: string, nodes: seq<NodeWithScore>): string {
    PromptLead + query + PromptGap + Context(nodes)
  }

  /** Where each piece of the prompt sits. */
  lemma PromptShape(query: string, nodes: seq<NodeWithScore>)
    ensures var p := Prompt(query, nodes);
            |p| == |PromptLead| + |query| + |PromptGap| + |Context(nodes)| &&
            p[..|PromptLead|] == PromptLead &&
            p[|PromptLead|..|PromptLead| + |query|] == query &&
            p[|PromptLead| + |query|..|PromptLead| + |query| + |PromptGap|] == PromptGap &&
            p[|p| - |Context(nodes)|..] == Context(nodes)
  {
    var p := Prompt(query, nodes);
    assert p == PromptLead + (query + (PromptGap + Context(nodes)));
  }

  /** Different questions over the same passages give different prompts. */
  lemma PromptInjective(q1: string, q2: string, nodes: seq<NodeWithScore>)
    requires Prompt(q1, nodes) == Prompt(q2, nodes)
    ensures q1 == q2
  {
    PromptShape(q1, nodes);
    PromptShape(q2, nodes);
  }

  /** `rag_agent_answer`: one completion over the prompt. */
  function RagAgentAnswer(query: string, topNodes: seq<NodeWithScore>, llm: Llm): Option<string> {
    llm(Prompt(query, topNodes))
  }

  /** `user_query.strip().lower() == "exit"`. */
  predicate IsExit(line: string) {
    Lower(Strip(line)) == "exit"
  }

  predicate SpellsExit(s: string) {
    |s| == 4 && s[0] in "eE" && s[1] in "xX" && s[2] in "iI" && s[3] in "tT"
  }

  /**
   * A line ends the session exactly when, once surrounding whitespace is stripped, it is
   * the word "exit" in any mix of cases.
   */
  lemma IsExitSpelled(line: string)
    ensures IsExit(line) <==> SpellsExit(Strip(line))
  {
    var s := Strip(line);
    if |s| == 4 {
      assert Lower(s)[0] == LowerChar(s[0]) && Lower(s)[1] == LowerChar(s[1]);
      assert Lower(s)[2] == LowerChar(s[2]) && Lower(s)[3] == LowerChar(s[3]);
      assert Lower(s) == [LowerChar(s[0]), LowerChar(s[1]), LowerChar(s[2]), LowerChar(s[3])];
    }
  }

  /** Whitespace around a line does not change whether it ends the session. */
  lemma ExitIgnoresSurroundingSpace(a: string, line: string, b: string)
    requires AllSpace(a) && AllSpace(b)
    ensures IsExit(a + line + b) == IsExit(line)
  {
    StripIgnoresSurroundingSpace(a, line, b);
  }

  /** One answered question of the session. */
  datatype Turn = Turn(query: string, results: seq<NodeWithScore>, answer: string)

  /**
   * How the session ends: an exit line, the end of the input (`input()` raising), or an
   * exception from retrieval or from the answering model, which ends the program.
   */
  datatype SessionEnd = Exited | InputExhausted | RetrieveFailed(error: RetrieveError) | AnswerFailed

  /** What the session's retrieval returns for one question. */
  function SessionResults(query: string, fusion: FusionRetriever, scorer: Scorer)
    : Result<seq<NodeWithScore>, RetrieveError>
  {
    Retrieved(query, SessionSimilarityTopK, SessionRerankTopK, fusion, scorer)
  }

  /** One question of the session: its turn, or the failure that ends the program. */
  function TurnFor(line: string, fusion: FusionRetriever, scorer: Scorer, llm: Llm): Result<Turn, SessionEnd> {
    match SessionResults(line, fusion, scorer)
    case Err(e) => Err(RetrieveFailed(e))
    case Ok(results) =>
      match RagAgentAnswer(line, results, llm)
      case None => Err(AnswerFailed)
      case Some(answer) => Ok(Turn(line, results, answer))
  }

  /** What one input line does: end the session on "exit", otherwise produce a turn or a failure. */
  function HandleLine(line: string, fusion: FusionRetriever, scorer: Scorer, llm: Llm): Result<Turn, SessionEnd> {
    if IsExit(line) then Err(Exited) else TurnFor(line, fusion, scorer, llm)
  }

  type LineHandler = string -> Result<Turn, SessionEnd>

  function SessionHandler(fusion: FusionRetriever, scorer: Scorer, llm: Llm): LineHandler {
    line => HandleLine(line, fusion, scorer, llm)
  }

  /** The turns a session over these input lines completes, and how it ends. */
  function Session(lines: seq<string>, handle: LineHandler): (seq<Turn>, SessionEnd)
    decreases |lines|
  {
    if lines == [] then ([], InputExhausted)
    else
      match handle(lines[0])
      case Err(e) => ([], e)
      case Ok(t) =>
        var rest := Session(lines[1..], handle);
        ([t] + rest.0, rest.1)
  }

  /** Turn k is what handling input line k produced. */
  lemma {:induction false} SessionTurnAt(lines: seq<string>, handle: LineHandler, k: nat)
    requires k < |Session(lines, handle).0|
    ensures k < |lines| && handle(lines[k]) == Ok(Session(lines, handle).0[k])
    decreases |lines|
  {
    if k > 0 {
      SessionTurnAt(lines[1..], handle, k - 1);
    }
  }

  /**
   * The session handles lines until the first one that does not produce a turn, and ends
   * with what that line produced; only when every line produced a turn does it end for
   * lack of input.
   */
  lemma {:induction false} SessionEnds(lines: seq<string>, handle: LineHandler)
    ensures |Session(lines, handle).0| <= |lines|
    ensures |Session(lines, handle).0| < |lines| ==>
              handle(lines[|Session(lines, handle).0|]) == Err(Session(lines, handle).1)
    ensures |Session(lines, handle).0| == |lines| ==> Session(lines, handle).1 == InputExhausted
    decreases |lines|
  {
    if lines != [] && handle(lines[0]).Ok? {
      SessionEnds(lines[1..], handle);
    }
  }

  /**
   * The interactive session answers every line up to the first exit line, and stops early
   * only when retrieval or the answering model fails on a line, saying which; it reports the
   * end of input only after answering every line. Each answered line gets the reranked
   * retrieval for it and the model's answer over exactly those results.
   */
  lemma ReplOutcome(lines: seq<string>, fusion: FusionRetriever, scorer: Scorer, llm: Llm, k: nat)
    ensures var s := Session(lines, SessionHandler(fusion, scorer, llm));
            |s.0| <= |lines| &&
            (s.1 == InputExhausted <==> |s.0| == |lines|) &&
            (s.1 == Exited ==> IsExit(lines[|s.0|])) &&
            (s.1.RetrieveFailed? ==>
               !IsExit(lines[|s.0|]) && SessionResults(lines[|s.0|], fusion, scorer) == Err(s.1.error)) &&
            (s.1 == AnswerFailed ==>
               !IsExit(lines[|s.0|]) && SessionResults(lines[|s.0|], fusion, scorer).Ok? &&
               RagAgentAnswer(lines[|s.0|], SessionResults(lines[|s.0|], fusion, scorer).value, llm).None?)
    ensures var s := Session(lines, SessionHandler(fusion, scorer, llm));
            k < |s.0| ==>
              !IsExit(lines[k]) && s.0[k].query == lines[k] &&
              SessionResults(lines[k], fusion, scorer) == Ok(s.0[k].results) &&
              RagAgentAnswer(lines[k], s.0[k].results, llm) == Some(s.0[k].answer)
  {
    var h := SessionHandler(fusion, scorer, llm);
    var s := Session(lines, h);
    SessionEnds(lines, h);
    if |s.0| < |lines| {
      assert h(lines[|s.0|]) == HandleLine(lines[|s.0|], fusion, scorer, llm);
    }
    if k < |s.0| {
      SessionTurnAt(lines, h, k);
      assert h(lines[k]) == HandleLine(lines[k], fusion, scorer, llm);
    }
  }

  /**
   * The `__main__` loop: read a line, stop on "exit", otherwise retrieve with the session's
   * settings, rerank and answer. Printing is left out; each answered question is a turn.
   */
  method RunSession(lines: seq<string>, fusion: FusionRetriever, scorer: Scorer, llm: Llm)
    returns (turns: seq<Turn>, end: SessionEnd)
    ensures turns == Session(lines, SessionHandler(fusion, scorer, llm)).0
    ensures end == Session(lines, SessionHandler(fusion, scorer, llm)).1
  {
    ghost var h := SessionHandler(fusion, scorer, llm);
    turns := [];
    var i := 0;
    assert lines[i..] == lines;
    assert turns + Session(lines[i..], h).0 == Session(lines, h).0;
    while i < |lines|
      invariant i <= |lines|
      invariant Session(lines, h).0 == turns + Session(lines[i..], h).0
      invariant Session(lines, h).1 == Session(lines[i..], h).1
      decreases |lines| - i
    {
      var userQuery := lines[i];
      assert lines[i..][0] == userQuery && lines[i..][1..] == lines[i + 1..];
      assert h(userQuery) == HandleLine(userQuery, fusion, scorer, llm);
      if Lower(Strip(userQuery)) == "exit" {
        return turns, Exited;
      }
      var results, requests := MultiqueryRetrieve(userQuery, 10, 5, fusion, scorer);
      if results.Err? {
        return turns, RetrieveFailed(results.error);
      }
      var finalAnswer := llm(Prompt(userQuery, results.value));
      if finalAnswer.None? {
        return turns, AnswerFailed;
      }
      assert turns + Session(lines[i..], h).0 ==
             (turns + [Turn(userQuery, results.value, finalAnswer.value)]) + Session(lines[i + 1..], h).0;
      turns := turns + [Turn(userQuery, results.value, finalAnswer.value)];
      i := i + 1;
    }
    assert lines[i..] == [];
    assert turns + [] == turns;
    end := InputExhausted;
  }
}
