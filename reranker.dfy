/** src/agents/reranker_agent.py: reordering retrieval results, either by
    the index list a language model replies with or by keyword overlap on
    the CPU. The model's reply is a parameter: `None` when the call raises. */
module Reranker {
  import opened Seqs
  import opened Text
  import opened Retriever

  // ---------------------------------------------------------------------
  // `_parse_reranking_response`
  // ---------------------------------------------------------------------

  /** `[int(t) for t in tokens if t.isdigit()]` */
  function DigitTokens(tokens: seq<string>): (r: seq<nat>)
    ensures |r| <= |tokens|
  {
    if tokens == [] then []
    else (if IsDigitString(tokens[0]) then [DigitsValue(tokens[0])] else [])
         + DigitTokens(tokens[1..])
  }

  /** The indices read from the first line of the stripped reply. */
  function ReplyIndices(response: string): seq<nat>
  {
    DigitTokens(Words(Strip(SplitOn(Strip(response), '\n')[0])))
  }

  /** The input positions in output order: the in-range indices in reply
      order, then every position the reply does not mention. */
  function Below(n: nat): nat -> bool
  {
    i => i < n
  }

  function NotIn(indices: seq<nat>): nat -> bool
  {
    i => i !in indices
  }

  /** The positions below n that the reply does not mention, ascending. */
  function Unmentioned(indices: seq<nat>, n: nat): (m: seq<nat>)
    ensures forall k :: 0 <= k < |m| ==> m[k] < n
  {
    var m := Filter(Range(n), NotIn(indices));
    assert forall k :: 0 <= k < |m| ==> m[k] in Range(n);
    m
  }

  function RerankPositions(indices: seq<nat>, n: nat): (p: seq<nat>)
    ensures forall i :: 0 <= i < |p| ==> p[i] < n
  {
    Filter(indices, Below(n)) + Unmentioned(indices, n)
  }

  lemma PickAppend<T>(s: seq<T>, p: seq<nat>, i: nat)
    requires forall k :: 0 <= k < |p| ==> p[k] < |s|
    requires i < |s|
    ensures Pick(s, p + [i]) == Pick(s, p) + [s[i]]
  {
    assert (p + [i])[..|p|] == p;
  }

  /** `[s[i] for i in p]` */
  function Pick<T>(s: seq<T>, p: seq<nat>): (r: seq<T>)
    requires forall i :: 0 <= i < |p| ==> p[i] < |s|
    ensures |r| == |p| && forall i :: 0 <= i < |p| ==> r[i] == s[p[i]]
  {
    if p == [] then [] else Pick(s, p[..|p| - 1]) + [s[p[|p| - 1]]]
  }

  /** `_parse_reranking_response`; the parse cannot raise on ASCII digits. */
  method ParseRerankingResponse(response: string, results: seq<RetrievalResult>)
    returns (reranked: seq<RetrievalResult>)
    ensures reranked == Pick(results, RerankPositions(ReplyIndices(response), |results|))
  {
    reranked := Reorder(ReplyIndices(response), results);
  }

  /** Its two loops: the in-range indices, then the unmentioned positions. */
  method Reorder(indices: seq<nat>, results: seq<RetrievalResult>)
    returns (reranked: seq<RetrievalResult>)
    ensures reranked == Pick(results, RerankPositions(indices, |results|))
  {
    var mentioned := PickMentioned(indices, results);
    reranked := AppendUnmentioned(indices, results, mentioned, Filter(indices, Below(|results|)));
  }

  /** The first loop: each reply index below `len(results)`, in reply order. */
  method PickMentioned<T>(indices: seq<nat>, results: seq<T>)
    returns (reranked: seq<T>)
    ensures reranked == Pick(results, Filter(indices, Below(|results|)))
  {
    var n := |results|;
    reranked := [];
    for j := 0 to |indices|
      invariant reranked == MentionedUpTo(indices, results, j)
    {
      MentionedStep(indices, results, j);
      var i := indices[j];
      reranked := reranked + (if i < n then [results[i]] else []);
    }
    assert indices[..|indices|] == indices;
  }

  /** The results the first loop has picked after j reply indices. */
  function MentionedUpTo<T>(indices: seq<nat>, results: seq<T>, j: nat): seq<T>
    requires j <= |indices|
  {
    Pick(results, Filter(indices[..j], Below(|results|)))
  }

  lemma MentionedStep<T>(indices: seq<nat>, results: seq<T>, j: nat)
    requires j < |indices|
    ensures MentionedUpTo(indices, results, j + 1)
            == MentionedUpTo(indices, results, j) + (if indices[j] < |results| then [results[indices[j]]] else [])
  {
    PickFilterSnoc(results, indices[..j], indices[j]);
    PrefixSnoc(indices, j);
  }

  /** One more reply index adds its result when it is in range. */
  lemma PickFilterSnoc<T>(results: seq<T>, pre: seq<nat>, x: nat)
    ensures Pick(results, Filter(pre + [x], Below(|results|)))
            == Pick(results, Filter(pre, Below(|results|))) + (if x < |results| then [results[x]] else [])
  {
    var n := |results|;
    var picked := Filter(pre, Below(n));
    FilterAppend(pre, [x], Below(n));
    if x < n {
      assert Filter([x], Below(n)) == [x];
      PickAppend(results, picked, x);
    } else {
      assert Filter([x], Below(n)) == [];
      assert picked + [] == picked;
    }
  }

  /** The second loop: every position the reply does not mention, ascending. */
  method AppendUnmentioned<T>(indices: seq<nat>, results: seq<T>,
                              mentioned: seq<T>, ghost picked: seq<nat>)
    returns (reranked: seq<T>)
    requires forall k :: 0 <= k < |picked| ==> picked[k] < |results|
    requires mentioned == Pick(results, picked)
    ensures reranked == Pick(results, picked + Unmentioned(indices, |results|))
  {
    reranked := mentioned;
    assert picked + Unmentioned(indices, 0) == picked;
    for i := 0 to |results|
      invariant reranked == Pick(results, picked + Unmentioned(indices, i))
    {
      UnmentionedStep(results, picked, indices, i);
      if i !in indices {
        reranked := reranked + [results[i]];
      }
    }
  }

  lemma UnmentionedStep<T>(results: seq<T>, picked: seq<nat>, indices: seq<nat>, i: nat)
    requires i < |results|
    requires forall k :: 0 <= k < |picked| ==> picked[k] < |results|
    ensures Pick(results, picked + Unmentioned(indices, i + 1))
      == Pick(results, picked + Unmentioned(indices, i)) + (if i in indices then [] else [results[i]])
  {
    var missing := Unmentioned(indices, i);
    var next: seq<nat> := [i];
    FilterAppend(Range(i), next, NotIn(indices));
    assert Range(i + 1) == Range(i) + next;
    if i !in indices {
      assert Filter(next, NotIn(indices)) == next;
      PickAppend(results, picked + missing, i);
      assert picked + (missing + next) == (picked + missing) + next;
    } else {
      assert Filter(next, NotIn(indices)) == [];
      assert missing + [] == missing;
    }
  }

  /** Every input position appears in the output at least once. */
  lemma EveryPositionKept(indices: seq<nat>, n: nat)
    ensures forall i :: 0 <= i < n ==> i in RerankPositions(indices, n)
  {
    var a := Filter(indices, Below(n));
    var b := Filter(Range(n), NotIn(indices));
    assert RerankPositions(indices, n) == a + b;
    forall i: nat | i < n ensures i in a + b {
      if i in indices {
        assert Below(n)(i);
        FilterKeeps(indices, Below(n), i);
        var k :| 0 <= k < |a| && a[k] == i;
        assert (a + b)[k] == i;
      } else {
        assert Range(n)[i] == i;
        assert NotIn(indices)(i);
        FilterKeeps(Range(n), NotIn(indices), i);
        var k :| 0 <= k < |b| && b[k] == i;
        assert (a + b)[|a| + k] == i;
      }
    }
  }

  /** Picking by positions that mention every index keeps every element. */
  lemma PickKeepsAll<T>(s: seq<T>, p: seq<nat>)
    requires forall k :: 0 <= k < |p| ==> p[k] < |s|
    requires forall i :: 0 <= i < |s| ==> i in p
    ensures forall i :: 0 <= i < |s| ==> s[i] in Pick(s, p)
  {
    forall i | 0 <= i < |s|
      ensures s[i] in Pick(s, p)
    {
      assert i in p;
      var k :| 0 <= k < |p| && p[k] == i;
      assert Pick(s, p)[k] == s[i];
    }
  }

  /** So every input result appears in the parsed output. */
  lemma EveryResultKept(response: string, results: seq<RetrievalResult>)
    ensures var out := Pick(results, RerankPositions(ReplyIndices(response), |results|));
      forall i :: 0 <= i < |results| ==> results[i] in out
  {
    var indices := ReplyIndices(response);
    EveryPositionKept(indices, |results|);
    PickKeepsAll(results, RerankPositions(indices, |results|));
  }

  /** A reply that is a permutation of 0..n-1 is followed exactly. */
  lemma PermutationReplyFollowed(indices: seq<nat>, n: nat)
    requires multiset(indices) == multiset(Range(n))
    ensures RerankPositions(indices, n) == indices
  {
    forall i | 0 <= i < |indices| ensures indices[i] < n {
      assert indices[i] in multiset(Range(n));
    }
    FilterAll(indices, Below(n));
    forall i | 0 <= i < |Range(n)| ensures Range(n)[i] in indices {
      assert Range(n)[i] in multiset(indices);
    }
    FilterNone(Range(n), NotIn(indices));
  }

  /** A repeated index emits its result twice; nothing is de-duplicated. */
  lemma RepeatedIndexDuplicates(a: RetrievalResult, b: RetrievalResult)
    ensures RerankPositions([0, 0], 2) == [0, 0, 1]
    ensures Pick([a, b], RerankPositions([0, 0], 2)) == [a, a, b]
  {
    RepeatedIndexPositions();
    var s := [a, b];
    var p: seq<nat> := [0, 0, 1];
    var r := Pick(s, p);
    assert r[0] == s[0] && r[1] == s[0] && r[2] == s[1];
    assert r == [a, a, b];
  }

  lemma RepeatedIndexPositions()
    ensures RerankPositions([0, 0], 2) == [0, 0, 1]
  {
    var ind: seq<nat> := [0, 0];
    var one: seq<nat> := [0];
    var both: seq<nat> := [0, 1];
    assert Filter(ind, Below(2)) == [0, 0] by {
      assert ind[1..] == one && one[1..] == [];
      assert Filter(one, Below(2)) == [0];
    }
    assert Range(2) == both;
    assert Filter(both, NotIn(ind)) == [1] by {
      assert both[1..] == [1];
      assert [1][1..] == [];
    }
  }

  // ---------------------------------------------------------------------
  // Keyword-overlap rescoring
  // ---------------------------------------------------------------------

  /** `set(text.lower().split())` */
  function TokenSet(text: string): set<string>
  {
    set w | w in Tokenize(text)
  }

  /** `len(query_tokens & text_tokens)` */
  function Overlap(query: string, text: string): (n: nat)
    ensures n <= |TokenSet(query)|
  {
    var both := TokenSet(query) * TokenSet(text);
    assert both <= TokenSet(query);
    SubsetCard(both, TokenSet(query));
    |both|
  }

  lemma SubsetCard<T>(a: set<T>, b: set<T>)
    requires a <= b
    ensures |a| <= |b|
  {
    if a != {} {
      var x :| x in a;
      SubsetCard(a - {x}, b - {x});
    }
  }

  /** The score after rescoring: the old one plus 0.1 per shared token. */
  function Rescore(query: string, r: RetrievalResult): (r': RetrievalResult)
    ensures r'.score >= r.score
    ensures r'.chunkId == r.chunkId && r'.docId == r.docId && r'.text == r.text
    ensures r'.language == r.language && r'.pageNum == r.pageNum && r'.metadata == r.metadata
  {
    r.(score := r.score + Overlap(query, r.text) as real * 0.1)
  }

  /** A query without tokens changes no score. */
  lemma BlankQueryKeepsScores(query: string, r: RetrievalResult)
    requires Tokenize(query) == []
    ensures Rescore(query, r) == r
  {
    assert TokenSet(query) == {};
  }

  function RescoreBy(query: string): RetrievalResult -> RetrievalResult
  {
    r => Rescore(query, r)
  }

  function RescoreAll(query: string, rs: seq<RetrievalResult>): (r: seq<RetrievalResult>)
    ensures |r| == |rs| && forall i :: 0 <= i < |rs| ==> r[i] == Rescore(query, rs[i])
  {
    Map(rs, RescoreBy(query))
  }

  /** What `rerank_with_cpu` returns for non-empty input. */
  function CpuReranked(query: string, rs: seq<RetrievalResult>, k: int): seq<RetrievalResult>
  {
    PySliceTo(SortDesc(RescoreAll(query, rs), ScoreOf), k)
  }

  /** The output is sorted by the new scores, holds min(k, n) results for a
      non-negative k, and each is a rescored input; equal scores keep the
      input order. */
  lemma CpuRerankedFacts(query: string, rs: seq<RetrievalResult>, k: int)
    ensures var out := CpuReranked(query, rs, k);
      && SortedDesc(out, ScoreOf)
      && (k >= 0 ==> |out| == Min(k, |rs|))
      && (forall i :: 0 <= i < |out| ==> out[i] in RescoreAll(query, rs))
      && forall v :: WithKey(SortDesc(RescoreAll(query, rs), ScoreOf), ScoreOf, v)
                     == WithKey(RescoreAll(query, rs), ScoreOf, v)
  {
    var all := RescoreAll(query, rs);
    var sorted := SortDesc(all, ScoreOf);
    SortDescFacts(all, ScoreOf);
    var out := CpuReranked(query, rs, k);
    forall i | 0 <= i < |out|
      ensures out[i] in all
    {
      assert out[i] == sorted[i];
      assert sorted[i] in multiset(all);
    }
    assert SortedDesc(out, ScoreOf) by {
      forall a, b | 0 <= a < b < |out| ensures out[a].score >= out[b].score {
        assert out[a] == sorted[a] && out[b] == sorted[b];
      }
    }
  }

  /** The scoring loop of `rerank_with_cpu`: every result object in the
      list is replaced by its rescored version. */
  method RescoreInPlace(results: array<RetrievalResult>, rescore: RetrievalResult -> RetrievalResult)
    modifies results
    ensures results[..] == Map(old(results[..]), rescore)
  {
    for i := 0 to results.Length
      invariant forall j :: 0 <= j < i ==> results[j] == rescore(old(results[j]))
      invariant forall j :: i <= j < results.Length ==> results[j] == old(results[j])
    {
      results[i] := rescore(results[i]);
    }
  }

  class RerankerAgent {
    const enableRerank: bool
    const rerankBackend: string
    const rerankTopK: int

    constructor(enableRerank: bool, rerankBackend: string, rerankTopK: int)
      ensures this.enableRerank == enableRerank && this.rerankBackend == rerankBackend
      ensures this.rerankTopK == rerankTopK
    {
      this.enableRerank := enableRerank;
      this.rerankBackend := rerankBackend;
      this.rerankTopK := rerankTopK;
    }

    /** `rerank_with_gemini`: an empty reply or a failed call falls back to
        the first `top_k` results in their original order. */
    method RerankWithGemini(results: seq<RetrievalResult>, topK: Option<int>, reply: Option<string>)
      returns (reranked: seq<RetrievalResult>)
      ensures results == [] ==> reranked == []
      ensures results != [] && (reply.None? || reply.value == "") ==>
                reranked == PySliceTo(results, OrDefault(topK, rerankTopK))
      ensures results != [] && reply.Some? && reply.value != "" ==>
                reranked == PySliceTo(Pick(results, RerankPositions(ReplyIndices(reply.value), |results|)),
                                      OrDefault(topK, rerankTopK))
    {
      var k := OrDefault(topK, rerankTopK);
      if results == [] {
        return [];
      }
      if reply.None? || reply.value == "" {
        return PySliceTo(results, k);
      }
      var parsed := ParseRerankingResponse(reply.value, results);
      reranked := PySliceTo(parsed, k);
    }

    /** `rerank_with_cpu`: overwrites each result's score in place, then
        returns the sorted, truncated list. */
    method RerankWithCpu(query: string, results: array<RetrievalResult>, topK: Option<int>)
      returns (reranked: seq<RetrievalResult>)
      modifies results
      ensures results.Length == 0 ==> reranked == []
      ensures results[..] == RescoreAll(query, old(results[..]))
      ensures results.Length > 0 ==> reranked == CpuReranked(query, old(results[..]), OrDefault(topK, rerankTopK))
    {
      var k := OrDefault(topK, rerankTopK);
      if results.Length == 0 {
        return [];
      }
      RescoreInPlace(results, RescoreBy(query));
      reranked := PySliceTo(SortDesc(results[..], ScoreOf), k);
    }

    /** `rerank`: disabled reranking keeps the first `top_k or len(results)`
        results; otherwise the configured backend decides. */
    method Rerank(query: string, results: array<RetrievalResult>, topK: Option<int>,
                  reply: Option<string>) returns (reranked: seq<RetrievalResult>)
      modifies results
      ensures !enableRerank ==>
                reranked == PySliceTo(old(results[..]), OrDefault(topK, results.Length))
                && results[..] == old(results[..])
      ensures enableRerank && rerankBackend == "gemini" ==>
                results[..] == old(results[..])
                && (results.Length == 0 ==> reranked == [])
                && (results.Length > 0 && (reply.None? || reply.value == "") ==>
                      reranked == PySliceTo(old(results[..]), OrDefault(topK, rerankTopK)))
                && (results.Length > 0 && reply.Some? && reply.value != "" ==>
                      reranked == PySliceTo(Pick(old(results[..]),
                                                 RerankPositions(ReplyIndices(reply.value), results.Length)),
                                            OrDefault(topK, rerankTopK)))
      ensures enableRerank && rerankBackend != "gemini" ==>
                results[..] == RescoreAll(query, old(results[..]))
                && (results.Length == 0 ==> reranked == [])
                && (results.Length > 0 ==>
                      reranked == CpuReranked(query, old(results[..]), OrDefault(topK, rerankTopK)))
    {
      if !enableRerank {
        return PySliceTo(results[..], OrDefault(topK, results.Length));
      }
      if rerankBackend == "gemini" {
        reranked := RerankWithGemini(results[..], topK, reply);
      } else {
        reranked := RerankWithCpu(query, results, topK);
      }
    }
  }
}
