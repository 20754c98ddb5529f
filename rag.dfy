/** src/agents/rag_agent.py: the retrieval front end of the question
    answering agent and the prompt it hands to the language model. The
    question's metadata hints become a filter, the question is optionally
    decomposed, each sub-question is retrieved, the results are merged and
    optionally reranked. The language models, the vector store and the
    embedding service are parameters. */
module Rag {
  import opened Seqs
  import opened Text
  import opened Retriever
  import Reranker
  import Decomposition
  import MetadataFilters

  // ---------------------------------------------------------------------
  // retrieve_context
  // ---------------------------------------------------------------------

  /** The question that is searched: cleaned of its hints only when some
      filter was found. */
  function SearchQuery(query: string): string
  {
    var filters := MetadataFilters.Filters(query);
    if |filters| > 0 then MetadataFilters.CleanedQuery(query, filters) else query
  }

  /** A question without language, page or document hints is searched
      verbatim; one with a hint is searched single-spaced and no longer
      than it was. */
  lemma SearchQueryFacts(query: string)
    ensures var none := MetadataFilters.LanguageFilter(query).None? && MetadataFilters.PageFilter(query).None?
                        && MetadataFilters.DocIdFilter(query).None?;
      && (none ==> SearchQuery(query) == query)
      && (!none ==> MetadataFilters.IsSingleSpaced(SearchQuery(query)) && |SearchQuery(query)| <= |query|)
  {
    var filters := MetadataFilters.Filters(query);
    MetadataFilters.FiltersFacts(query);
    if |filters| > 0 {
      MetadataFilters.CleanedQueryIsSingleSpaced(query, filters);
    }
  }

  /** The merged results: the first result retrieved for each chunk id. */
  function UniqueResults(all: seq<RetrievalResult>): seq<RetrievalResult>
  {
    DedupByKey(all, ChunkIdOf)
  }

  /** Every chunk id retrieved appears exactly once, carried by the first
      result that had it, whatever the later ones scored. */
  lemma UniqueResultsFacts(all: seq<RetrievalResult>)
    ensures var u := UniqueResults(all);
      && |u| <= |all|
      && DistinctKeys(u, ChunkIdOf)
      && KeySet(u, ChunkIdOf) == KeySet(all, ChunkIdOf)
      && (forall i {:trigger u[i]} :: 0 <= i < |u| ==>
            exists j :: 0 <= j < |all| && ChunkIdOf(all[j]) == ChunkIdOf(u[i]))
      && forall i :: 0 <= i < |u| ==> u[i] == FirstWithKey(all, ChunkIdOf, ChunkIdOf(u[i]))
  {
    DedupFromFacts(all, ChunkIdOf, {});
  }

  /** The first wins, not the best: a later, better-scored copy of a chunk
      is dropped. */
  lemma FirstCopyWins(a: RetrievalResult, score: real)
    ensures UniqueResults([a, a.(score := score)]) == [a]
  {
    var b := a.(score := score);
    var seen := {ChunkIdOf(a)};
    assert [a, b][1..] == [b];
    assert [b][1..] == [];
    assert DedupFrom([b], ChunkIdOf, seen) == DedupFrom([], ChunkIdOf, seen) == [];
    assert DedupFrom([a, b], ChunkIdOf, {}) == [a] + DedupFrom([b], ChunkIdOf, {} + {ChunkIdOf(a)});
  }

  /** The replies of the language models consulted while retrieving:
      `None` stands for a failed call. */
  datatype Replies = Replies(ollamaDecomposition: Option<string>, geminiDecomposition: Option<string>,
                             rerank: Option<string>)

  // ---------------------------------------------------------------------
  // build_prompt
  // ---------------------------------------------------------------------

  /** `str()` of a payload value. Values of other types are rendered as
      the empty string. */
  function ValueText(v: Value): string
  {
    match v
    case VNull => "None"
    case VStr(s) => s
    case VInt(i) => IntToString(i)
    case VOther => ""
  }

  /** One retrieved chunk, headed by where it comes from. */
  function ChunkBlock(r: RetrievalResult): string
  {
    "[Document: " + ValueText(r.docId) + ", Page: " + ValueText(r.pageNum)
    + ", Language: " + ValueText(r.language) + "]\n" + r.text
  }

  /** The context section: the chunks in order, a blank line apart. */
  function ContextText(context: seq<RetrievalResult>): string
  {
    Join(Map(context, ChunkBlock), "\n\n")
  }

  /** Each further chunk adds a blank line and its block at the end. */
  lemma ContextTextAppend(context: seq<RetrievalResult>, r: RetrievalResult)
    ensures ContextText([r]) == ChunkBlock(r)
    ensures context != [] ==> ContextText(context + [r]) == ContextText(context) + "\n\n" + ChunkBlock(r)
  {
    assert Map([r], ChunkBlock) == [ChunkBlock(r)];
    if context != [] {
      assert Map(context + [r], ChunkBlock) == Map(context, ChunkBlock) + [ChunkBlock(r)];
      JoinAppend(Map(context, ChunkBlock), [ChunkBlock(r)], "\n\n");
    }
  }

  /** A chat message: a dict from field name to text. */
  type Message = map<string, string>

  /** `msg.get("role", "user")` */
  function Role(m: Message): string
  {
    if "role" in m then m["role"] else "user"
  }

  /** `msg.get("content", "")` */
  function Content(m: Message): string
  {
    if "content" in m then m["content"] else ""
  }

  function HistoryLine(m: Message): string
  {
    Upper(Role(m)) + ": " + Content(m)
  }

  /** The lines of the history section. */
  function HistoryLines(history: seq<Message>): seq<string>
  {
    Map(PyTail(history, 5), HistoryLine)
  }

  /** One history line per message among the last five, oldest first,
      with the role in capitals. */
  lemma HistoryWindow(history: seq<Message>)
    ensures var lines := HistoryLines(history);
      && |lines| == Min(5, |history|)
      && forall i :: 0 <= i < |lines| ==> lines[i] == HistoryLine(history[|history| - |lines| + i])
  {
    var tail := PyTail(history, 5);
    var lines := Map(tail, HistoryLine);
    assert |lines| == |tail|;
    forall i | 0 <= i < |lines| ensures lines[i] == HistoryLine(history[|history| - |lines| + i]) {
      assert lines[i] == HistoryLine(tail[i]);
      assert tail[i] == history[|history| - |tail| + i];
    }
  }

  function HistoryText(history: seq<Message>): string
  {
    Join(HistoryLines(history), "\n")
  }

  /** The history section is empty exactly when there is no history. */
  lemma HistoryTextEmpty(history: seq<Message>)
    ensures HistoryText(history) == "" <==> history == []
  {
    var lines := HistoryLines(history);
    HistoryWindow(history);
    if history != [] {
      JoinStartsWithFirst(lines, "\n");
      assert HistoryLine(history[|history| - |lines|]) != "";
    }
  }

  /** A join starts with its first part. */
  lemma {:induction false} JoinStartsWithFirst(parts: seq<string>, sep: string)
    requires parts != []
    ensures |parts[0]| <= |Join(parts, sep)| && Join(parts, sep)[..|parts[0]|] == parts[0]
  {
    if |parts| > 1 {
      assert Join(parts, sep) == parts[0] + (sep + Join(parts[1..], sep));
    }
  }

  const HistoryHeading := "\n\nPrevious conversation:\n"
  const ContextHeading := "\n\nContext from documents:\n"
  const CurrentQuestionCue := "\n\nCurrent question: "
  const QuestionCue := "\n\nQuestion: "
  const AnswerCue := "\n\nAnswer:"

  /** `build_prompt`: the system prompt, then the sections. */
  function BuildPrompt(system: string, query: string, context: seq<RetrievalResult>,
                       history: seq<Message>): string
  {
    system + PromptSections(query, ContextText(context), HistoryText(history))
  }

  /** The history section when there is history, the context, and the
      question. */
  function PromptSections(query: string, contextText: string, historyText: string): string
  {
    HistorySection(historyText) + ContextHeading + contextText + QuestionLabel(historyText)
    + query + AnswerCue
  }

  /** The "Previous conversation" section, empty without a history text. */
  function HistorySection(historyText: string): string
  {
    if historyText != "" then HistoryHeading + historyText else ""
  }

  /** The label in front of the question: "Current question" after a
      history, "Question" without one. */
  function QuestionLabel(historyText: string): string
  {
    if historyText != "" then CurrentQuestionCue else QuestionCue
  }

  /** The prompt opens with the system prompt; the "Previous conversation"
      section follows it exactly when there is history; the prompt ends
      by asking for the answer. */
  lemma BuildPromptShape(system: string, query: string, context: seq<RetrievalResult>,
                         history: seq<Message>)
    ensures var p := BuildPrompt(system, query, context, history);
      && OccursAt(p, system, 0)
      && (OccursAt(p, HistoryHeading, |system|) <==> history != [])
      && OccursAt(p, AnswerCue, |p| - |AnswerCue|)
  {
    HistoryTextEmpty(history);
    PromptShape(system, query, ContextText(context), HistoryText(history));
  }

  /** The prompt carries the retrieved chunks right after the context
      heading. */
  lemma BuildPromptContext(system: string, query: string, context: seq<RetrievalResult>,
                           history: seq<Message>)
    ensures var p := BuildPrompt(system, query, context, history);
      var c := |p| - |AnswerCue| - |query| - |QuestionLabel(HistoryText(history))| - |ContextText(context)|;
      OccursAt(p, ContextHeading, c - |ContextHeading|) && OccursAt(p, ContextText(context), c)
  {
    PromptContextAt(BuildPrompt(system, query, context, history), system, query, ContextText(context),
                    HistoryText(history));
  }

  /** The prompt carries the question right after the context and its
      label, "Current question" after a history and "Question" without
      one, and nothing but the answer cue follows it. */
  lemma BuildPromptQuestion(system: string, query: string, context: seq<RetrievalResult>,
                            history: seq<Message>)
    ensures var p := BuildPrompt(system, query, context, history);
      var c := |p| - |AnswerCue| - |query| - |QuestionLabel(HistoryText(history))| - |ContextText(context)|;
      && OccursAt(p, QuestionLabel(HistoryText(history)), c + |ContextText(context)|)
      && OccursAt(p, query, |p| - |AnswerCue| - |query|)
      && (QuestionLabel(HistoryText(history)) == CurrentQuestionCue <==> history != [])
  {
    HistoryTextEmpty(history);
    PromptQuestionAt(BuildPrompt(system, query, context, history), system, query, ContextText(context),
                     HistoryText(history));
  }

  /** With a history, the prompt carries its lines right after the
      "Previous conversation" heading. */
  lemma BuildPromptHistory(system: string, query: string, context: seq<RetrievalResult>,
                           history: seq<Message>)
    requires history != []
    ensures OccursAt(BuildPrompt(system, query, context, history), HistoryText(history),
                     |system| + |HistoryHeading|)
  {
    HistoryTextEmpty(history);
    PromptHistoryAt(BuildPrompt(system, query, context, history), system, query, ContextText(context),
                    HistoryText(history));
  }

  /** The context text right after its heading, for any context and
      history text. */
  lemma PromptContextAt(p: string, system: string, query: string, ct: string, ht: string)
    requires p == system + PromptSections(query, ct, ht)
    ensures var c := |p| - |AnswerCue| - |query| - |QuestionLabel(ht)| - |ct|;
      OccursAt(p, ContextHeading, c - |ContextHeading|) && OccursAt(p, ct, c)
  {
    PiecesAfter(p, system, HistorySection(ht), ContextHeading, ct, QuestionLabel(ht), query, AnswerCue,
                |p| - |AnswerCue| - |query| - |QuestionLabel(ht)| - |ct|);
  }

  /** The labelled question just before the answer cue, for any context
      and history text. */
  lemma PromptQuestionAt(p: string, system: string, query: string, ct: string, ht: string)
    requires p == system + PromptSections(query, ct, ht)
    ensures var c := |p| - |AnswerCue| - |query| - |QuestionLabel(ht)| - |ct|;
      OccursAt(p, QuestionLabel(ht), c + |ct|) && OccursAt(p, query, |p| - |AnswerCue| - |query|)
  {
    PiecesAfter(p, system, HistorySection(ht), ContextHeading, ct, QuestionLabel(ht), query, AnswerCue,
                |p| - |AnswerCue| - |query| - |QuestionLabel(ht)| - |ct|);
  }

  /** The history text right after its heading. */
  lemma PromptHistoryAt(p: string, system: string, query: string, ct: string, ht: string)
    requires ht != "" && p == system + PromptSections(query, ct, ht)
    ensures OccursAt(p, ht, |system| + |HistoryHeading|)
  {
    FrontPiece(p, system, HistoryHeading, ht, ContextHeading, ct, QuestionLabel(ht), query, AnswerCue);
  }

  /** The pieces that end the sections, located in the whole prompt. */
  lemma PiecesAfter(p: string, system: string, front: string, h: string, t: string, l: string,
                    q: string, cue: string, c: int)
    requires p == system + (front + h + t + l + q + cue)
    requires c == |p| - |cue| - |q| - |l| - |t|
    ensures OccursAt(p, h, c - |h|) && OccursAt(p, t, c) && OccursAt(p, l, c + |t|)
    ensures OccursAt(p, q, |p| - |cue| - |q|)
  {
    var sections := front + h + t + l + q + cue;
    TailPieces(sections, front, h, t, l, q, cue);
    var d := |sections| - |cue| - |q| - |l| - |t|;
    OccursShift(system, sections, h, d - |h|);
    OccursShift(system, sections, t, d);
    OccursShift(system, sections, l, d + |t|);
    OccursShift(system, sections, q, |sections| - |cue| - |q|);
  }

  /** The second half of the front piece, located in the whole prompt. */
  lemma FrontPiece(p: string, system: string, a: string, b: string, h: string, t: string,
                   l: string, q: string, cue: string)
    requires p == system + ((a + b) + h + t + l + q + cue)
    ensures OccursAt(p, b, |system| + |a|)
  {
    assert p[|system| + |a|..|system| + |a| + |b|] == b;
  }

  /** The same, for any context and history text. */
  lemma PromptShape(system: string, query: string, contextText: string, historyText: string)
    ensures var p := system + PromptSections(query, contextText, historyText);
      && OccursAt(p, system, 0)
      && (OccursAt(p, HistoryHeading, |system|) <==> historyText != "")
      && OccursAt(p, AnswerCue, |p| - |AnswerCue|)
  {
    SectionsShape(query, contextText, historyText);
    SystemThenSections(system, PromptSections(query, contextText, historyText));
  }

  lemma SystemThenSections(system: string, sections: string)
    requires OccursAt(sections, AnswerCue, |sections| - |AnswerCue|)
    ensures var p := system + sections;
      && OccursAt(p, system, 0)
      && (OccursAt(p, HistoryHeading, |system|) <==> OccursAt(sections, HistoryHeading, 0))
      && OccursAt(p, AnswerCue, |p| - |AnswerCue|)
  {
    OccursAtJoin(system, sections, HistoryHeading);
    OccursAtJoin(system, sections, AnswerCue);
  }

  /** The sections open with the history heading exactly when there is a
      history text, and end with the answer cue. */
  lemma SectionsShape(query: string, contextText: string, historyText: string)
    ensures var s := PromptSections(query, contextText, historyText);
      && (OccursAt(s, HistoryHeading, 0) <==> historyText != "")
      && OccursAt(s, AnswerCue, |s| - |AnswerCue|)
  {
    if historyText != "" {
      SectionsWithHistory(query, contextText, historyText);
    } else {
      SectionsWithoutHistory(query, contextText, historyText);
    }
  }

  lemma SectionsWithHistory(query: string, contextText: string, historyText: string)
    requires historyText != ""
    ensures var s := PromptSections(query, contextText, historyText);
      OccursAt(s, HistoryHeading, 0) && OccursAt(s, AnswerCue, |s| - |AnswerCue|)
  {
    var a := HistoryHeading + historyText;
    var b := a + ContextHeading;
    var c := b + contextText;
    var d := c + CurrentQuestionCue;
    var body := d + query;
    assert PromptSections(query, contextText, historyText) == body + AnswerCue;
    OccursAtJoin(body, AnswerCue, AnswerCue);
    PrefixOfConcat(HistoryHeading, historyText, HistoryHeading);
    PrefixOfConcat(a, ContextHeading, HistoryHeading);
    PrefixOfConcat(b, contextText, HistoryHeading);
    PrefixOfConcat(c, CurrentQuestionCue, HistoryHeading);
    PrefixOfConcat(d, query, HistoryHeading);
    PrefixOfConcat(body, AnswerCue, HistoryHeading);
  }

  lemma SectionsWithoutHistory(query: string, contextText: string, historyText: string)
    requires historyText == ""
    ensures var s := PromptSections(query, contextText, historyText);
      !OccursAt(s, HistoryHeading, 0) && OccursAt(s, AnswerCue, |s| - |AnswerCue|)
  {
    var body := "" + ContextHeading + contextText + QuestionCue + query;
    var s := body + AnswerCue;
    assert PromptSections(query, contextText, historyText) == s;
    assert !OccursAt(s, HistoryHeading, 0) by {
      assert s[2] == ContextHeading[2] == 'C' != HistoryHeading[2];
    }
    assert OccursAt(s, AnswerCue, |s| - |AnswerCue|) by {
      OccursAtJoin(body, AnswerCue, AnswerCue);
    }
  }

  /** An occurrence in b is one in a + b, |a| further on. */
  lemma OccursShift(a: string, b: string, m: string, k: int)
    requires OccursAt(b, m, k)
    ensures OccursAt(a + b, m, |a| + k)
  {
    assert (a + b)[|a| + k..|a| + k + |m|] == b[k..k + |m|];
  }

  /** The pieces at the end of a concatenation, located from its end. */
  lemma TailPieces(p: string, front: string, h: string, t: string, l: string, q: string, cue: string)
    requires p == front + h + t + l + q + cue
    ensures var c := |p| - |cue| - |q| - |l| - |t|;
      && c - |h| == |front|
      && OccursAt(p, h, c - |h|) && OccursAt(p, t, c) && OccursAt(p, l, c + |t|)
      && OccursAt(p, q, |p| - |cue| - |q|)
  {
    var i := |front|;
    assert p[i..i + |h|] == h;
    assert p[i + |h|..i + |h| + |t|] == t;
    assert p[i + |h| + |t|..i + |h| + |t| + |l|] == l;
    assert p[i + |h| + |t| + |l|..i + |h| + |t| + |l| + |q|] == q;
  }


  /** A prefix of a stays a prefix of a + b. */
  lemma PrefixOfConcat(a: string, b: string, m: string)
    requires OccursAt(a, m, 0) || a == m
    ensures OccursAt(a + b, m, 0)
  {
    assert (a + b)[..|m|] == a[..|m|];
  }

  /** Where a string and its pieces occur in a concatenation. */
  lemma OccursAtJoin(a: string, b: string, m: string)
    ensures OccursAt(a + b, a, 0)
    ensures OccursAt(a + b, m, |a|) <==> OccursAt(b, m, 0)
    ensures |m| <= |b| ==> (OccursAt(a + b, m, |a + b| - |m|) <==> OccursAt(b, m, |b| - |m|))
  {
    assert (a + b)[..|a|] == a;
    if |m| <= |b| {
      assert (a + b)[|a|..|a| + |m|] == b[..|m|];
      assert (a + b)[|a + b| - |m|..|a + b|] == b[|b| - |m|..];
    }
  }

  /** The index state only matters to a question that reaches sparse
      search. */
  lemma RetrievalOfSameIndex(r: RetrieverAgent, index: Option<seq<seq<string>>>, docs: seq<Doc>,
                             index': Option<seq<seq<string>>>, docs': seq<Doc>, query: string,
                             topK: int, f: MetadataFilter, svc: Services)
    requires (r.enableBm25 && svc.embed(query).Some?) ==> index == index' && docs == docs'
    ensures RetrievalOf(r, index, docs, query, topK, f, svc) == RetrievalOf(r, index', docs', query, topK, f, svc)
  {
  }

  /** One more question retrieved: the earlier questions' results still
      agree with the index as it now stands. */
  lemma RetrievalSnoc(r: RetrieverAgent, index: Option<seq<seq<string>>>, docs: seq<Doc>,
                      index': Option<seq<seq<string>>>, docs': seq<Doc>, queries: seq<string>,
                      perQuery: seq<seq<RetrievalResult>>, results: seq<RetrievalResult>,
                      topK: int, f: MetadataFilter, svc: Services)
    requires |perQuery| < |queries|
    requires forall j :: 0 <= j < |perQuery| ==>
               perQuery[j] == RetrievalOf(r, index, docs, queries[j], topK, f, svc)
    requires forall j :: 0 <= j < |perQuery| && r.enableBm25 && svc.embed(queries[j]).Some? ==>
               IndexSettled(index, docs, svc)
    requires IndexSettled(index, docs, svc) ==> index' == index && docs' == docs
    requires results == RetrievalOf(r, index', docs', queries[|perQuery|], topK, f, svc)
    ensures forall j :: 0 <= j < |perQuery| + 1 ==>
              (perQuery + [results])[j] == RetrievalOf(r, index', docs', queries[j], topK, f, svc)
  {
    forall j | 0 <= j < |perQuery| + 1
      ensures (perQuery + [results])[j] == RetrievalOf(r, index', docs', queries[j], topK, f, svc)
    {
      if j < |perQuery| {
        RetrievalOfSameIndex(r, index, docs, index', docs', queries[j], topK, f, svc);
      }
    }
  }

  /** One more question retrieved: the index stays settled once a
      question has reached sparse search. */
  lemma SettledSnoc(r: RetrieverAgent, index: Option<seq<seq<string>>>, docs: seq<Doc>,
                    index': Option<seq<seq<string>>>, docs': seq<Doc>, queries: seq<string>,
                    i: int, svc: Services)
    requires 0 <= i < |queries|
    requires forall j :: 0 <= j < i && r.enableBm25 && svc.embed(queries[j]).Some? ==>
               IndexSettled(index, docs, svc)
    requires IndexSettled(index, docs, svc) ==> index' == index && docs' == docs
    requires r.enableBm25 && svc.embed(queries[i]).Some? ==> IndexSettled(index', docs', svc)
    ensures forall j :: 0 <= j < i + 1 && r.enableBm25 && svc.embed(queries[j]).Some? ==>
              IndexSettled(index', docs', svc)
  {
  }

  // ---------------------------------------------------------------------
  // The agent
  // ---------------------------------------------------------------------

  class RAGAgent {
    const primaryModel: string
    const fallbackModel: string
    const retriever: RetrieverAgent
    const reranker: Reranker.RerankerAgent
    const decomposer: Decomposition.DecompositionAgent

    /** The primary model is named without its provider prefix. */
    constructor(llmPrimary: string, llmFallback: string,
                retriever: RetrieverAgent, reranker: Reranker.RerankerAgent,
                decomposer: Decomposition.DecompositionAgent)
      ensures primaryModel == Decomposition.ParseModelName(llmPrimary) && fallbackModel == llmFallback
      ensures this.retriever == retriever && this.reranker == reranker && this.decomposer == decomposer
    {
      primaryModel := Decomposition.ParseModelName(llmPrimary);
      fallbackModel := llmFallback;
      this.retriever := retriever;
      this.reranker := reranker;
      this.decomposer := decomposer;
    }

    /** The loop of `retrieve_context` over the questions: each question's
        results, appended in question order. Every question is retrieved
        with the same filter and `top_k`; the first one that reaches
        sparse search builds the BM25 index, which the later ones reuse. */
    method RetrieveAll(queries: seq<string>, topK: int, filters: MetadataFilter, svc: Services)
      returns (all: seq<RetrievalResult>, ghost perQuery: seq<seq<RetrievalResult>>)
      modifies retriever
      ensures |perQuery| == |queries| && all == Flatten(perQuery)
      ensures forall i :: 0 <= i < |queries| ==>
                perQuery[i] == RetrievalOf(retriever, retriever.bm25Index, retriever.bm25Documents,
                                           queries[i], topK, filters, svc)
      ensures forall i :: 0 <= i < |queries| ==>
                (svc.embed(queries[i]).None? ==> perQuery[i] == [])
                && (topK >= 0 ==> |perQuery[i]| <= topK)
    {
      all := [];
      perQuery := [];
      for i := 0 to |queries|
        invariant |perQuery| == i && all == Flatten(perQuery)
        invariant forall j :: 0 <= j < i ==>
                    perQuery[j] == RetrievalOf(retriever, retriever.bm25Index, retriever.bm25Documents,
                                               queries[j], topK, filters, svc)
        invariant forall j :: 0 <= j < i && retriever.enableBm25 && svc.embed(queries[j]).Some? ==>
                    IndexSettled(retriever.bm25Index, retriever.bm25Documents, svc)
        invariant forall j :: 0 <= j < i ==>
                    (svc.embed(queries[j]).None? ==> perQuery[j] == [])
                    && (topK >= 0 ==> |perQuery[j]| <= topK)
      {
        ghost var index, docs := retriever.bm25Index, retriever.bm25Documents;
        var results := retriever.Retrieve(queries[i], topK, filters, svc);
        RetrievalSnoc(retriever, index, docs, retriever.bm25Index, retriever.bm25Documents,
                      queries, perQuery, results, topK, filters, svc);
        SettledSnoc(retriever, index, docs, retriever.bm25Index, retriever.bm25Documents,
                    queries, i, svc);
        FlattenSnoc(perQuery, results);
        perQuery := perQuery + [results];
        all := all + results;
      }
    }

    /** The front of `retrieve_context`: the filters, the question to
        search and the questions decomposed from it. */
    method PlanQueries(query: string, useDecomposition: bool, replies: Replies)
      returns (filters: MetadataFilter, cleaned: string, queries: seq<string>)
      ensures filters == MetadataFilters.Filters(query) && cleaned == SearchQuery(query)
      ensures 1 <= |queries| <= 5 && queries[0] == cleaned && DistinctKeys(queries, Lower)
      ensures !(useDecomposition && decomposer.enableDecomposition) ==> queries == [cleaned]
    {
      filters := MetadataFilters.ExtractFilters(query);
      cleaned := query;
      if |filters| > 0 {
        cleaned := MetadataFilters.CleanQuery(query, filters);
      }
      if useDecomposition && decomposer.enableDecomposition {
        queries := decomposer.DecomposeQuery(cleaned, replies.ollamaDecomposition, replies.geminiDecomposition);
      } else {
        queries := [cleaned];
      }
    }

    /** The end of `retrieve_context`: merge, then rerank or cut. Reranking
        runs only when enabled and there are more than `top_k` merged
        results. Note that a `top_k` of 0 is falsy inside the reranker and
        is replaced by its own `rerank_top_k`. */
    method MergeAndRerank(cleaned: string, all: seq<RetrievalResult>, topK: int, reply: Option<string>)
      returns (results: seq<RetrievalResult>)
      ensures var unique := UniqueResults(all);
        && (!(reranker.enableRerank && |unique| > topK) ==> results == PySliceTo(unique, topK))
        && (reranker.enableRerank && |unique| > topK && reranker.rerankBackend != "gemini" ==>
              results == Reranker.CpuReranked(cleaned, unique,
                                              OrDefault(Some(topK), reranker.rerankTopK)))
        && (reranker.enableRerank && |unique| > topK && reranker.rerankBackend == "gemini"
            && (reply.None? || reply.value == "") ==>
              results == PySliceTo(unique, OrDefault(Some(topK), reranker.rerankTopK)))
        && (reranker.enableRerank && |unique| > topK && reranker.rerankBackend == "gemini"
            && reply.Some? && reply.value != "" ==>
              results == PySliceTo(Reranker.Pick(unique, Reranker.RerankPositions(
                                                   Reranker.ReplyIndices(reply.value), |unique|)),
                                   OrDefault(Some(topK), reranker.rerankTopK)))
      ensures topK > 0 ==> |results| <= topK
    {
      var unique := DedupFirst(all, ChunkIdOf);
      if reranker.enableRerank && |unique| > topK {
        var arr := new RetrievalResult[|unique|](i requires 0 <= i < |unique| => unique[i]);
        assert arr[..] == unique;
        results := reranker.Rerank(cleaned, arr, Some(topK), reply);
        if reranker.rerankBackend != "gemini" && unique != [] {
          Reranker.CpuRerankedFacts(cleaned, unique, OrDefault(Some(topK), reranker.rerankTopK));
        }
      } else {
        results := PySliceTo(unique, topK);
      }
    }

    /** `retrieve_context`: the questions are retrieved one after the other
        with the same filter, and their results merged first come, first
        kept. */
    method RetrieveContext(query: string, topK: int, useDecomposition: bool, replies: Replies,
                           svc: Services)
      returns (results: seq<RetrievalResult>, ghost queries: seq<string>,
               ghost perQuery: seq<seq<RetrievalResult>>)
      modifies retriever
      ensures 1 <= |queries| <= 5 && queries[0] == SearchQuery(query)
      ensures !(useDecomposition && decomposer.enableDecomposition) ==> queries == [SearchQuery(query)]
      ensures DistinctKeys(queries, Lower)
      ensures |perQuery| == |queries|
      ensures forall i :: 0 <= i < |queries| ==>
                perQuery[i] == RetrievalOf(retriever, retriever.bm25Index, retriever.bm25Documents,
                                           queries[i], topK, MetadataFilters.Filters(query), svc)
      ensures forall i :: 0 <= i < |queries| ==>
                (svc.embed(queries[i]).None? ==> perQuery[i] == [])
                && (topK >= 0 ==> |perQuery[i]| <= topK)
      ensures var unique := UniqueResults(Flatten(perQuery));
        && (!(reranker.enableRerank && |unique| > topK) ==> results == PySliceTo(unique, topK))
        && (reranker.enableRerank && |unique| > topK && reranker.rerankBackend != "gemini" ==>
              results == Reranker.CpuReranked(SearchQuery(query), unique,
                                              OrDefault(Some(topK), reranker.rerankTopK)))
        && (reranker.enableRerank && |unique| > topK && reranker.rerankBackend == "gemini"
            && (replies.rerank.None? || replies.rerank.value == "") ==>
              results == PySliceTo(unique, OrDefault(Some(topK), reranker.rerankTopK)))
        && (reranker.enableRerank && |unique| > topK && reranker.rerankBackend == "gemini"
            && replies.rerank.Some? && replies.rerank.value != "" ==>
              results == PySliceTo(Reranker.Pick(unique, Reranker.RerankPositions(
                                                   Reranker.ReplyIndices(replies.rerank.value), |unique|)),
                                   OrDefault(Some(topK), reranker.rerankTopK)))
      ensures topK > 0 ==> |results| <= topK
    {
      var filters, cleaned, qs := PlanQueries(query, useDecomposition, replies);
      queries := qs;
      var all;
      all, perQuery := RetrieveAll(qs, topK, filters, svc);
      results := MergeAndRerank(cleaned, all, topK, replies.rerank);
    }
  }
}
