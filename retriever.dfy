/** src/agents/retriever_agent.py: hybrid retrieval. Dense search over the
    vector store and sparse BM25 search over a lazily built in-memory corpus
    are fused either by a weighted sum of scores or by reciprocal rank
    fusion. The embedding service, the vector store and the BM25 scorer are
    parameters. */
module Retriever {
  import opened Seqs
  import opened Text

  /** A payload value as the vector store returns it. `VOther` stands for a
      value of any other type (a list, a dict). */
  datatype Value = VNull | VStr(s: string) | VInt(i: int) | VOther

  type Payload = map<string, Value>

  /** `metadata_filter`: field name to required value. An absent filter and
      an empty one behave alike (both are falsy). */
  type MetadataFilter = map<string, Value>

  /** `RetrievalResult`; `metadata or {}` makes a missing metadata empty. */
  datatype RetrievalResult = RetrievalResult(chunkId: Value, docId: Value, text: string,
                                             score: real, language: Value, pageNum: Value,
                                             metadata: map<string, Value>)

  function ChunkIdOf(r: RetrievalResult): Value { r.chunkId }
  function ScoreOf(r: RetrievalResult): real { r.score }

  function Ids(s: seq<RetrievalResult>): seq<Value> { Map(s, ChunkIdOf) }

  /** The payload keys that become fields of a result; every other key goes
      into its metadata. */
  const FixedKeys: set<string> := {"chunk_id", "doc_id", "text", "language", "page_num"}

  /** `payload.get(k)` */
  function Get(p: Payload, k: string): Value { if k in p then p[k] else VNull }

  /** `payload.get("text", "")`, read as a string. */
  function TextOf(p: Payload): string
  {
    if "text" in p && p["text"].VStr? then p["text"].s else ""
  }

  function ExtraFields(p: Payload): (m: map<string, Value>)
    ensures m.Keys == p.Keys - FixedKeys
    ensures forall k :: k in m ==> m[k] == p[k]
  {
    map k | k in p && k !in FixedKeys :: p[k]
  }

  /** A hit of the vector store: its payload and its similarity. */
  datatype Hit = Hit(payload: Payload, score: real)

  function FromHit(h: Hit): RetrievalResult
  {
    RetrievalResult(Get(h.payload, "chunk_id"), Get(h.payload, "doc_id"), TextOf(h.payload),
                    h.score, Get(h.payload, "language"), Get(h.payload, "page_num"),
                    ExtraFields(h.payload))
  }

  /** The filter handed to the vector store: only when a non-empty filter is
      given and filtering is enabled. */
  function StoreFilter(f: MetadataFilter, enabled: bool): (r: Option<MetadataFilter>)
    ensures r.Some? <==> |f| > 0 && enabled
    ensures r.Some? ==> r.value == f
  {
    if |f| > 0 && enabled then Some(f) else None
  }

  /** The vector store's search: `None` when it raises. */
  type VectorSearch = (seq<real>, Option<MetadataFilter>, int) -> Option<seq<Hit>>

  /** `dense_search`: a failing store gives no results. */
  function DenseSearch(search: VectorSearch, vec: seq<real>, topK: int, f: MetadataFilter,
                       enabled: bool): (r: seq<RetrievalResult>)
    ensures search(vec, StoreFilter(f, enabled), topK).None? ==> r == []
    ensures search(vec, StoreFilter(f, enabled), topK).Some? ==>
              var hits := search(vec, StoreFilter(f, enabled), topK).value;
              |r| == |hits|
              && forall i :: 0 <= i < |r| ==>
                   r[i].score == hits[i].score
                   && r[i].chunkId == Get(hits[i].payload, "chunk_id")
                   && r[i].metadata.Keys == hits[i].payload.Keys - FixedKeys
  {
    match search(vec, StoreFilter(f, enabled), topK)
    case None => []
    case Some(hits) => Map(hits, FromHit)
  }

  // ---------------------------------------------------------------------
  // Sparse search
  // ---------------------------------------------------------------------

  /** An entry of the BM25 corpus. */
  datatype Doc = Doc(chunkId: Value, docId: Value, text: string, language: Value,
                     pageNum: Value, metadata: map<string, Value>)

  function DocFromPayload(p: Payload): Doc
  {
    Doc(Get(p, "chunk_id"), Get(p, "doc_id"), TextOf(p), Get(p, "language"),
        Get(p, "page_num"), ExtraFields(p))
  }

  /** `doc.get(k)`; the metadata dict compares equal to no filter value. */
  function DocField(d: Doc, k: string): Value
  {
    if k == "chunk_id" then d.chunkId
    else if k == "doc_id" then d.docId
    else if k == "text" then VStr(d.text)
    else if k == "language" then d.language
    else if k == "page_num" then d.pageNum
    else if k == "metadata" then VOther
    else VNull
  }

  predicate MatchesFilter(d: Doc, f: MetadataFilter)
  {
    forall k :: k in f ==> DocField(d, k) == f[k]
  }

  function DocResult(d: Doc, score: real): RetrievalResult
  {
    RetrievalResult(d.chunkId, d.docId, d.text, score, d.language, d.pageNum, d.metadata)
  }

  /** `text.lower().split()` */
  function Tokenize(text: string): seq<string> { Words(Lower(text)) }

  /** The BM25 scorer: one score per corpus entry. */
  type Bm25Scorer = (seq<seq<string>>, seq<string>) -> seq<real>

  function ScoreAt(scores: seq<real>, i: nat): real
  {
    if i < |scores| then scores[i] else 0.0
  }

  function ScoreKey(scores: seq<real>): nat -> real
  {
    (i: nat) => ScoreAt(scores, i)
  }

  /** `sorted(range(len(scores)), key=scores, reverse=True)[:top_k]` */
  function TopIndices(scores: seq<real>, topK: int): seq<nat>
  {
    PySliceTo(SortDesc(Range(|scores|), ScoreKey(scores)), topK)
  }

  /** The loop of `sparse_search` over the top positions: a position past
      the corpus raises, which the search turns into no results. */
  function SparseFrom(docs: seq<Doc>, scores: seq<real>, top: seq<nat>, useFilter: bool,
                      f: MetadataFilter): Option<seq<RetrievalResult>>
  {
    if top == [] then Some([])
    else
      var prev := SparseFrom(docs, scores, top[..|top| - 1], useFilter, f);
      var idx := top[|top| - 1];
      if prev.None? || idx >= |docs| then None
      else if useFilter && !MatchesFilter(docs[idx], f) then prev
      else Some(prev.value + [DocResult(docs[idx], ScoreAt(scores, idx))])
  }

  /** What `sparse_search` returns once the index exists and is non-empty. */
  function SparseResults(docs: seq<Doc>, scores: seq<real>, topK: int, useFilter: bool,
                         f: MetadataFilter): seq<RetrievalResult>
  {
    match SparseFrom(docs, scores, TopIndices(scores, topK), useFilter, f)
    case None => []
    case Some(rs) => PySliceTo(rs, topK)
  }

  lemma {:induction false} SparseFromNone(docs: seq<Doc>, scores: seq<real>, top: seq<nat>,
                                          n: nat, useFilter: bool, f: MetadataFilter)
    requires n <= |top|
    requires SparseFrom(docs, scores, top[..n], useFilter, f).None?
    ensures SparseFrom(docs, scores, top, useFilter, f).None?
    decreases |top| - n
  {
    if n < |top| {
      assert top[..n + 1][..n] == top[..n];
      SparseFromNone(docs, scores, top, n + 1, useFilter, f);
    } else {
      assert top[..n] == top;
    }
  }

  /** The result is the document at one of the listed positions, with that
      position's score, and passes the filter when filtering. */
  ghost predicate FromTop(r: RetrievalResult, docs: seq<Doc>, scores: seq<real>, top: seq<nat>,
                          useFilter: bool, f: MetadataFilter)
  {
    exists m :: 0 <= m < |top| && top[m] < |docs|
                && r == DocResult(docs[top[m]], ScoreAt(scores, top[m]))
                && (useFilter ==> MatchesFilter(docs[top[m]], f))
  }

  /** Every sparse result comes from a listed position whose document passes
      the filter, carries that position's score, and the results keep the
      order of the positions. */
  lemma {:induction false} SparseFromFacts(docs: seq<Doc>, scores: seq<real>, top: seq<nat>,
                                           useFilter: bool, f: MetadataFilter)
    requires SparseFrom(docs, scores, top, useFilter, f).Some?
    requires SortedDesc(top, ScoreKey(scores))
    ensures var rs := SparseFrom(docs, scores, top, useFilter, f).value;
      && |rs| <= |top|
      && SortedDesc(rs, ScoreOf)
      && forall k :: 0 <= k < |rs| ==> FromTop(rs[k], docs, scores, top, useFilter, f)
  {
    if top != [] {
      var init := top[..|top| - 1];
      assert SortedDesc<nat>(init, ScoreKey(scores)) by {
        forall a, b | 0 <= a < b < |init|
          ensures ScoreAt(scores, init[a]) >= ScoreAt(scores, init[b])
        {
          assert init[a] == top[a] && init[b] == top[b];
        }
      }
      SparseFromFacts(docs, scores, init, useFilter, f);
      SparseFromSnoc(docs, scores, top, useFilter, f);
    }
  }

  /** The step of SparseFromFacts: what holds of the results for all but
      the last position carries over to all positions. */
  lemma SparseFromSnoc(docs: seq<Doc>, scores: seq<real>, top: seq<nat>, useFilter: bool, f: MetadataFilter)
    requires top != [] && SparseFrom(docs, scores, top, useFilter, f).Some?
    requires SortedDesc(top, ScoreKey(scores))
    requires var init := top[..|top| - 1];
      && SparseFrom(docs, scores, init, useFilter, f).Some?
      && var prev := SparseFrom(docs, scores, init, useFilter, f).value;
      && |prev| <= |init|
      && SortedDesc(prev, ScoreOf)
      && forall k :: 0 <= k < |prev| ==> FromTop(prev[k], docs, scores, init, useFilter, f)
    ensures var rs := SparseFrom(docs, scores, top, useFilter, f).value;
      && |rs| <= |top|
      && SortedDesc(rs, ScoreOf)
      && forall k :: 0 <= k < |rs| ==> FromTop(rs[k], docs, scores, top, useFilter, f)
  {
    var init := top[..|top| - 1];
    var idx := top[|top| - 1];
    var prev := SparseFrom(docs, scores, init, useFilter, f).value;
    var rs := SparseFrom(docs, scores, top, useFilter, f).value;
    PrevFromTop(docs, scores, top, useFilter, f, prev);
    if rs != prev {
      var last := DocResult(docs[idx], ScoreAt(scores, idx));
      assert rs == prev + [last];
      assert FromTop(last, docs, scores, top, useFilter, f) by {
        assert top[|top| - 1] == idx;
      }
      SnocSorted(prev, last, docs, scores, top, useFilter, f);
    }
  }

  /** The results taken from all but the last position come from the
      positions and score at least as much as the last one. */
  lemma PrevFromTop(docs: seq<Doc>, scores: seq<real>, top: seq<nat>, useFilter: bool, f: MetadataFilter,
                    prev: seq<RetrievalResult>)
    requires top != [] && SortedDesc(top, ScoreKey(scores))
    requires forall k :: 0 <= k < |prev| ==> FromTop(prev[k], docs, scores, top[..|top| - 1], useFilter, f)
    ensures forall k :: 0 <= k < |prev| ==> FromTop(prev[k], docs, scores, top, useFilter, f)
    ensures forall k :: 0 <= k < |prev| ==> prev[k].score >= ScoreAt(scores, top[|top| - 1])
  {
    var init := top[..|top| - 1];
    forall k | 0 <= k < |prev|
      ensures FromTop(prev[k], docs, scores, top, useFilter, f)
      ensures prev[k].score >= ScoreAt(scores, top[|top| - 1])
    {
      var m :| 0 <= m < |init| && init[m] < |docs|
               && prev[k] == DocResult(docs[init[m]], ScoreAt(scores, init[m]))
               && (useFilter ==> MatchesFilter(docs[init[m]], f));
      assert init[m] == top[m];
      assert ScoreKey(scores)(top[m]) >= ScoreKey(scores)(top[|top| - 1]);
    }
  }

  /** Appending a result that scores no more than those before it keeps
      the results sorted and drawn from the positions. */
  lemma SnocSorted(prev: seq<RetrievalResult>, last: RetrievalResult, docs: seq<Doc>, scores: seq<real>,
                   top: seq<nat>, useFilter: bool, f: MetadataFilter)
    requires SortedDesc(prev, ScoreOf)
    requires forall k :: 0 <= k < |prev| ==> prev[k].score >= last.score
    requires forall k :: 0 <= k < |prev| ==> FromTop(prev[k], docs, scores, top, useFilter, f)
    requires FromTop(last, docs, scores, top, useFilter, f)
    ensures SortedDesc(prev + [last], ScoreOf)
    ensures forall k :: 0 <= k < |prev + [last]| ==> FromTop((prev + [last])[k], docs, scores, top, useFilter, f)
  {
    var rs := prev + [last];
    forall a, b | 0 <= a < b < |rs| ensures rs[a].score >= rs[b].score {
      assert rs[a] == prev[a];
      if b < |prev| {
        assert rs[b] == prev[b];
      }
    }
    forall k | 0 <= k < |rs| ensures FromTop(rs[k], docs, scores, top, useFilter, f) {
      if k < |prev| {
        assert rs[k] == prev[k];
      }
    }
  }

  /** Every position among the top ones scores at least as high as every
      position left out. */
  lemma TopIndicesAreHighest(scores: seq<real>, topK: int)
    ensures var top := TopIndices(scores, topK);
      forall i, j :: 0 <= i < |top| && 0 <= j < |scores| && j !in top ==>
        ScoreAt(scores, top[i]) >= ScoreAt(scores, j)
  {
    var key := ScoreKey(scores);
    var all := SortDesc(Range(|scores|), key);
    var top := TopIndices(scores, topK);
    SortDescFacts(Range(|scores|), key);
    forall i, j | 0 <= i < |top| && 0 <= j < |scores| && j !in top
      ensures ScoreAt(scores, top[i]) >= ScoreAt(scores, j)
    {
      assert Range(|scores|)[j] == j;
      assert j in multiset(all);
      var p :| 0 <= p < |all| && all[p] == j;
      assert top[i] == all[i];
      assert p >= |top|;
    }
  }

  lemma TopIndicesSorted(scores: seq<real>, topK: int)
    ensures SortedDesc(TopIndices(scores, topK), ScoreKey(scores))
  {
    var all := SortDesc(Range(|scores|), ScoreKey(scores));
    var top := TopIndices(scores, topK);
    SortDescFacts(Range(|scores|), ScoreKey(scores));
    forall a, b | 0 <= a < b < |top| ensures ScoreKey(scores)(top[a]) >= ScoreKey(scores)(top[b]) {
      assert top[a] == all[a] && top[b] == all[b];
    }
  }

  /** The sparse search returns at most `top_k` results in non-increasing
      score order, each drawn from the `top_k` best positions and passing
      the filter. */
  lemma SparseResultsFacts(docs: seq<Doc>, scores: seq<real>, topK: int, useFilter: bool,
                           f: MetadataFilter)
    ensures var r := SparseResults(docs, scores, topK, useFilter, f);
      var top := TopIndices(scores, topK);
      && (topK >= 0 ==> |r| <= topK)
      && SortedDesc(r, ScoreOf)
      && forall k :: 0 <= k < |r| ==> FromTop(r[k], docs, scores, top, useFilter, f)
  {
    var top := TopIndices(scores, topK);
    TopIndicesSorted(scores, topK);
    var sf := SparseFrom(docs, scores, top, useFilter, f);
    if sf.Some? {
      SparseFromFacts(docs, scores, top, useFilter, f);
      var r := SparseResults(docs, scores, topK, useFilter, f);
      assert r == PySliceTo(sf.value, topK);
      assert forall k :: 0 <= k < |r| ==> r[k] == sf.value[k];
    }
  }

  /** The filter is applied after the cut to `top_k` positions: a matching
      document just below the cut is not returned. */
  lemma FilterAfterCut()
    ensures var f := map["language" := VStr("en")];
      var bn := Doc(VStr("c1"), VStr("d1"), "x", VStr("bn"), VInt(1), map[]);
      var en := Doc(VStr("c2"), VStr("d2"), "y", VStr("en"), VInt(1), map[]);
      && MatchesFilter(en, f)
      && SparseResults([bn, en], [2.0, 1.0], 1, true, f) == []
  {
    var f := map["language" := VStr("en")];
    var bn := Doc(VStr("c1"), VStr("d1"), "x", VStr("bn"), VInt(1), map[]);
    var scores := [2.0, 1.0];
    var key := ScoreKey(scores);
    assert Range(2) == [0, 1];
    assert [0, 1][1..] == [1];
    assert SortDesc<nat>([1], key) == [1];
    assert SortDesc<nat>([0, 1], key) == [0, 1];
    assert TopIndices(scores, 1) == [0];
    assert [0][..0] == [];
    assert DocField(bn, "language") == VStr("bn");
    assert !MatchesFilter(bn, f);
  }

  // ---------------------------------------------------------------------
  // Fusion
  // ---------------------------------------------------------------------

  /** The contribution of one result at a rank of one of the two lists. */
  type Term = (nat, RetrievalResult) -> real

  /** `1.0 / (k + rank + 1)` with `k = 60` */
  function RrfTerm(rank: nat): (t: real)
    ensures 0.0 < t <= 1.0 / 61.0
  {
    RrfBound(rank);
    1.0 / (61 + rank) as real
  }

  lemma RrfBound(rank: nat)
    ensures 0.0 < 1.0 / (61 + rank) as real <= 1.0 / 61.0
  {
    var d := (61 + rank) as real;
    assert d >= 61.0;
    assert 1.0 / d * d == 1.0;
    assert 1.0 / 61.0 * 61.0 == 1.0;
  }

  /** The terms of `fuse_results`: weighted by `dense_weight` and
      `keyword_weight` for "weighted", reciprocal rank for anything else. */
  function DenseTerm(fusionMethod: string, denseWeight: real): Term
  {
    if fusionMethod == "weighted" then (rank: nat, r: RetrievalResult) => r.score * denseWeight
    else (rank: nat, r: RetrievalResult) => RrfTerm(rank)
  }

  function SparseTerm(fusionMethod: string, keywordWeight: real): Term
  {
    if fusionMethod == "weighted" then (rank: nat, r: RetrievalResult) => r.score * keywordWeight
    else (rank: nat, r: RetrievalResult) => RrfTerm(rank)
  }

  predicate HasId(s: seq<RetrievalResult>, id: Value)
  {
    exists i :: 0 <= i < |s| && s[i].chunkId == id
  }

  /** The position of the last result with the chunk id. */
  function LastRank(s: seq<RetrievalResult>, id: Value): (k: nat)
    requires HasId(s, id)
    ensures k < |s| && s[k].chunkId == id
    ensures forall j :: k < j < |s| ==> s[j].chunkId != id
  {
    if s[|s| - 1].chunkId == id then |s| - 1
    else
      var i :| 0 <= i < |s| && s[i].chunkId == id;
      assert s[..|s| - 1][i] == s[i];
      LastRank(s[..|s| - 1], id)
  }

  /** The position of the first result with the chunk id. */
  function FirstRank(s: seq<RetrievalResult>, id: Value): (k: nat)
    requires HasId(s, id)
    ensures k < |s| && s[k].chunkId == id
    ensures forall j :: 0 <= j < k ==> s[j].chunkId != id
  {
    if s[0].chunkId == id then 0
    else
      var i :| 0 <= i < |s| && s[i].chunkId == id;
      assert s[1..][i - 1] == s[i];
      1 + FirstRank(s[1..], id)
  }

  /** The sum of the terms of every occurrence of the chunk id. */
  function SumTerms(s: seq<RetrievalResult>, id: Value, term: Term): real
  {
    if s == [] then 0.0
    else
      SumTerms(s[..|s| - 1], id, term)
      + (if s[|s| - 1].chunkId == id then term(|s| - 1, s[|s| - 1]) else 0.0)
  }

  /** The fused entry of a chunk id: the fields of its last dense result
      (a later duplicate overwrites an earlier one), or else of its first
      sparse result; the score is the dense term of that last dense result
      plus the sparse terms of all its sparse occurrences. */
  function FusedEntry(dense: seq<RetrievalResult>, sparse: seq<RetrievalResult>,
                      dTerm: Term, sTerm: Term, id: Value): RetrievalResult
    requires HasId(dense, id) || HasId(sparse, id)
  {
    if HasId(dense, id) then
      var k := LastRank(dense, id);
      dense[k].(score := dTerm(k, dense[k]) + SumTerms(sparse, id, sTerm))
    else
      sparse[FirstRank(sparse, id)].(score := SumTerms(sparse, id, sTerm))
  }

  /** The chunk ids in order of first appearance over dense then sparse:
      the insertion order of the result map. */
  function FusedIds(dense: seq<RetrievalResult>, sparse: seq<RetrievalResult>): seq<Value>
  {
    Ids(DedupByKey(dense + sparse, ChunkIdOf))
  }

  lemma FusedIdsPresent(dense: seq<RetrievalResult>, sparse: seq<RetrievalResult>)
    ensures forall i :: 0 <= i < |FusedIds(dense, sparse)| ==>
              HasId(dense, FusedIds(dense, sparse)[i]) || HasId(sparse, FusedIds(dense, sparse)[i])
  {
    var u := DedupByKey(dense + sparse, ChunkIdOf);
    DedupFromFacts(dense + sparse, ChunkIdOf, {});
    forall i | 0 <= i < |u|
      ensures HasId(dense, u[i].chunkId) || HasId(sparse, u[i].chunkId)
    {
      var j :| 0 <= j < |dense + sparse| && (dense + sparse)[j].chunkId == u[i].chunkId;
      if j >= |dense| {
        assert sparse[j - |dense|] == (dense + sparse)[j];
      } else {
        assert dense[j] == (dense + sparse)[j];
      }
    }
  }

  function Entries(ids: seq<Value>, dense: seq<RetrievalResult>, sparse: seq<RetrievalResult>,
                   dTerm: Term, sTerm: Term): (r: seq<RetrievalResult>)
    requires forall i :: 0 <= i < |ids| ==> HasId(dense, ids[i]) || HasId(sparse, ids[i])
    ensures |r| == |ids|
    ensures forall i :: 0 <= i < |ids| ==> r[i] == FusedEntry(dense, sparse, dTerm, sTerm, ids[i])
  {
    if ids == [] then []
    else
      Entries(ids[..|ids| - 1], dense, sparse, dTerm, sTerm)
      + [FusedEntry(dense, sparse, dTerm, sTerm, ids[|ids| - 1])]
  }

  /** The values of the result map in insertion order. */
  function FusedValues(dense: seq<RetrievalResult>, sparse: seq<RetrievalResult>,
                       dTerm: Term, sTerm: Term): seq<RetrievalResult>
  {
    FusedIdsPresent(dense, sparse);
    Entries(FusedIds(dense, sparse), dense, sparse, dTerm, sTerm)
  }

  /** `sorted(result_map.values(), key=score, reverse=True)` */
  function Fused(dense: seq<RetrievalResult>, sparse: seq<RetrievalResult>,
                 dTerm: Term, sTerm: Term): seq<RetrievalResult>
  {
    SortDesc(FusedValues(dense, sparse, dTerm, sTerm), ScoreOf)
  }

  lemma HasIdAppend(a: seq<RetrievalResult>, b: seq<RetrievalResult>, id: Value)
    ensures HasId(a + b, id) <==> HasId(a, id) || HasId(b, id)
    ensures HasId(a + b, id) <==> id in KeySet(a + b, ChunkIdOf)
  {
    if HasId(a, id) {
      var w :| 0 <= w < |a| && a[w].chunkId == id;
      assert (a + b)[w] == a[w];
    }
    if HasId(b, id) {
      var w :| 0 <= w < |b| && b[w].chunkId == id;
      assert (a + b)[|a| + w] == b[w];
    }
    if HasId(a + b, id) {
      var w :| 0 <= w < |a + b| && (a + b)[w].chunkId == id;
      if w < |a| {
        assert a[w] == (a + b)[w];
      } else {
        assert b[w - |a|] == (a + b)[w];
      }
    }
  }

  /** The insertion order grows by a chunk id the first time it is seen. */
  lemma FusedIdsAppend(dense: seq<RetrievalResult>, sparse: seq<RetrievalResult>, x: RetrievalResult)
    ensures FusedIds(dense, sparse + [x])
            == FusedIds(dense, sparse)
               + (if HasId(dense, x.chunkId) || HasId(sparse, x.chunkId) then [] else [x.chunkId])
  {
    assert dense + (sparse + [x]) == (dense + sparse) + [x];
    DedupFromAppend(dense + sparse, x, ChunkIdOf, {});
    HasIdAppend(dense, sparse, x.chunkId);
    MapAppend(DedupByKey(dense + sparse, ChunkIdOf), x, ChunkIdOf);
  }

  lemma LastRankAppend(s: seq<RetrievalResult>, x: RetrievalResult, id: Value)
    requires HasId(s + [x], id)
    ensures x.chunkId != id ==> HasId(s, id) && LastRank(s + [x], id) == LastRank(s, id)
    ensures x.chunkId == id ==> LastRank(s + [x], id) == |s|
  {
    var t := s + [x];
    var k := LastRank(t, id);
    if x.chunkId != id {
      assert k < |s| && s[k] == t[k];
      var k2 := LastRank(s, id);
      assert t[k2] == s[k2];
    }
  }

  lemma FirstRankAppend(s: seq<RetrievalResult>, x: RetrievalResult, id: Value)
    requires HasId(s + [x], id)
    ensures HasId(s, id) ==> FirstRank(s + [x], id) == FirstRank(s, id)
    ensures !HasId(s, id) ==> x.chunkId == id && FirstRank(s + [x], id) == |s|
  {
    var t := s + [x];
    var k := FirstRank(t, id);
    if HasId(s, id) {
      var k2 := FirstRank(s, id);
      assert t[k2] == s[k2];
      assert k <= k2;
      assert s[k] == t[k];
    }
  }

  lemma {:induction false} SumTermsAbsent(s: seq<RetrievalResult>, id: Value, term: Term)
    requires !HasId(s, id)
    ensures SumTerms(s, id, term) == 0.0
  {
    if s != [] {
      var init := s[..|s| - 1];
      assert !HasId(init, id) by {
        forall a | 0 <= a < |init| ensures init[a].chunkId != id { assert init[a] == s[a]; }
      }
      SumTermsAbsent(init, id, term);
    }
  }

  lemma SumTermsAppend(s: seq<RetrievalResult>, x: RetrievalResult, id: Value, term: Term)
    ensures SumTerms(s + [x], id, term)
            == SumTerms(s, id, term) + (if x.chunkId == id then term(|s|, x) else 0.0)
  {
    assert (s + [x])[..|s|] == s;
  }

  /** The result map holds, in insertion order, the fused entry of every
      chunk id seen so far. */
  ghost predicate TableIs(keys: seq<Value>, table: map<Value, RetrievalResult>,
                          dense: seq<RetrievalResult>, sparse: seq<RetrievalResult>,
                          dTerm: Term, sTerm: Term)
  {
    && keys == FusedIds(dense, sparse)
    && (forall id :: id in table <==> HasId(dense, id) || HasId(sparse, id))
    && (forall id :: id in table ==> table[id] == FusedEntry(dense, sparse, dTerm, sTerm, id))
  }

  /** One step of the dense loop: the result overwrites any earlier entry of
      its chunk id, whose position in the map stays. */
  lemma DenseStep(keys: seq<Value>, table: map<Value, RetrievalResult>, d: seq<RetrievalResult>,
                  x: RetrievalResult, dTerm: Term, sTerm: Term)
    requires TableIs(keys, table, d, [], dTerm, sTerm)
    ensures TableIs(if x.chunkId in table then keys else keys + [x.chunkId],
                    table[x.chunkId := x.(score := dTerm(|d|, x))], d + [x], [], dTerm, sTerm)
  {
    assert x.chunkId in table <==> HasId(d, x.chunkId) by {
      assert !HasId([], x.chunkId);
    }
    DenseStepKeys(keys, d, x, x.chunkId in table);
    DenseStepDomain(table, d, x, x.(score := dTerm(|d|, x)));
    DenseStepEntries(table, d, x, dTerm, sTerm);
  }

  lemma DenseStepKeys(keys: seq<Value>, d: seq<RetrievalResult>, x: RetrievalResult, seen: bool)
    requires keys == FusedIds(d, []) && (seen <==> HasId(d, x.chunkId))
    ensures (if seen then keys else keys + [x.chunkId]) == FusedIds(d + [x], [])
  {
    assert d + [] == d && (d + [x]) + [] == d + [x];
    assert [] + d == d && [] + (d + [x]) == d + [x];
    assert FusedIds(d, []) == FusedIds([], d);
    assert FusedIds(d + [x], []) == FusedIds([], d + [x]);
    FusedIdsAppend([], d, x);
    assert !HasId([], x.chunkId);
  }

  lemma DenseStepDomain(table: map<Value, RetrievalResult>, d: seq<RetrievalResult>,
                        x: RetrievalResult, e: RetrievalResult)
    requires forall id :: id in table <==> HasId(d, id) || HasId([], id)
    ensures forall id :: id in table[x.chunkId := e] <==> HasId(d + [x], id) || HasId([], id)
  {
    forall id ensures id in table[x.chunkId := e] <==> HasId(d + [x], id) {
      HasIdAppend(d, [x], id);
      assert [x][0] == x;
    }
  }

  lemma DenseStepEntries(table: map<Value, RetrievalResult>, d: seq<RetrievalResult>,
                         x: RetrievalResult, dTerm: Term, sTerm: Term)
    requires forall id :: id in table ==> HasId(d, id) && table[id] == FusedEntry(d, [], dTerm, sTerm, id)
    ensures var table' := table[x.chunkId := x.(score := dTerm(|d|, x))];
      forall id :: id in table' ==> (HasId(d + [x], id)
                                     && table'[id] == FusedEntry(d + [x], [], dTerm, sTerm, id))
  {
    var table' := table[x.chunkId := x.(score := dTerm(|d|, x))];
    forall id | id in table'
      ensures HasId(d + [x], id) && table'[id] == FusedEntry(d + [x], [], dTerm, sTerm, id)
    {
      HasIdAppend(d, [x], id);
      assert [x][0] == x;
      DenseEntryStep(d, x, dTerm, sTerm, id);
    }
  }

  /** The entry of a chunk id once the dense loop has seen one more result:
      that result's own entry, or the entry it had before. */
  lemma DenseEntryStep(d: seq<RetrievalResult>, x: RetrievalResult, dTerm: Term, sTerm: Term, id: Value)
    requires HasId(d + [x], id)
    ensures id == x.chunkId ==> FusedEntry(d + [x], [], dTerm, sTerm, id) == x.(score := dTerm(|d|, x))
    ensures id != x.chunkId ==> HasId(d, id)
    ensures id != x.chunkId ==>
              FusedEntry(d + [x], [], dTerm, sTerm, id) == FusedEntry(d, [], dTerm, sTerm, id)
  {
    LastRankAppend(d, x, id);
    if id != x.chunkId {
      assert (d + [x])[LastRank(d, id)] == d[LastRank(d, id)];
    } else {
      assert (d + [x])[|d|] == x;
    }
  }

  /** The entry the sparse loop stores for a result at a rank: the term is
      added to an existing entry, or the result starts a new one. */
  function SparseUpdate(table: map<Value, RetrievalResult>, rank: nat, x: RetrievalResult,
                        sTerm: Term): RetrievalResult
  {
    if x.chunkId in table then table[x.chunkId].(score := table[x.chunkId].score + sTerm(rank, x))
    else x.(score := sTerm(rank, x))
  }

  /** One step of the sparse loop. */
  lemma SparseStep(keys: seq<Value>, table: map<Value, RetrievalResult>,
                   dense: seq<RetrievalResult>, s: seq<RetrievalResult>, x: RetrievalResult,
                   dTerm: Term, sTerm: Term)
    requires TableIs(keys, table, dense, s, dTerm, sTerm)
    ensures TableIs(if x.chunkId in table then keys else keys + [x.chunkId],
                    table[x.chunkId := SparseUpdate(table, |s|, x, sTerm)],
                    dense, s + [x], dTerm, sTerm)
  {
    FusedIdsAppend(dense, s, x);
    SparseStepDomain(table, dense, s, x, SparseUpdate(table, |s|, x, sTerm));
    SparseStepEntries(table, dense, s, x, dTerm, sTerm);
  }

  lemma SparseStepDomain(table: map<Value, RetrievalResult>, dense: seq<RetrievalResult>,
                         s: seq<RetrievalResult>, x: RetrievalResult, e: RetrievalResult)
    requires forall id :: id in table <==> HasId(dense, id) || HasId(s, id)
    ensures forall id :: id in table[x.chunkId := e] <==> HasId(dense, id) || HasId(s + [x], id)
  {
    forall id ensures HasId(s + [x], id) <==> HasId(s, id) || x.chunkId == id {
      HasIdAppend(s, [x], id);
      assert [x][0] == x;
    }
  }

  lemma SparseStepEntries(table: map<Value, RetrievalResult>, dense: seq<RetrievalResult>,
                          s: seq<RetrievalResult>, x: RetrievalResult, dTerm: Term, sTerm: Term)
    requires forall id :: id in table <==> HasId(dense, id) || HasId(s, id)
    requires forall id :: id in table ==> table[id] == FusedEntry(dense, s, dTerm, sTerm, id)
    ensures var table' := table[x.chunkId := SparseUpdate(table, |s|, x, sTerm)];
      forall id :: id in table' ==> (HasId(dense, id) || HasId(s + [x], id))
                                     && table'[id] == FusedEntry(dense, s + [x], dTerm, sTerm, id)
  {
    var table' := table[x.chunkId := SparseUpdate(table, |s|, x, sTerm)];
    forall id | id in table'
      ensures (HasId(dense, id) || HasId(s + [x], id))
      ensures table'[id] == FusedEntry(dense, s + [x], dTerm, sTerm, id)
    {
      HasIdAppend(s, [x], id);
      assert [x][0] == x;
      SparseEntryStep(table, dense, s, x, dTerm, sTerm, id);
    }
  }

  /** The entry of a chunk id once the sparse loop has seen one more result. */
  lemma SparseEntryStep(table: map<Value, RetrievalResult>, dense: seq<RetrievalResult>,
                        s: seq<RetrievalResult>, x: RetrievalResult, dTerm: Term, sTerm: Term, id: Value)
    requires forall id :: id in table <==> HasId(dense, id) || HasId(s, id)
    requires forall id :: id in table ==> table[id] == FusedEntry(dense, s, dTerm, sTerm, id)
    requires id in table || id == x.chunkId
    requires HasId(dense, id) || HasId(s + [x], id)
    ensures table[x.chunkId := SparseUpdate(table, |s|, x, sTerm)][id] == FusedEntry(dense, s + [x], dTerm, sTerm, id)
  {
    SumTermsAppend(s, x, id, sTerm);
    if !HasId(dense, id) {
      FirstRankAppend(s, x, id);
      if !HasId(s, id) {
        SumTermsAbsent(s, id, sTerm);
        assert (s + [x])[|s|] == x;
      } else {
        assert (s + [x])[FirstRank(s, id)] == s[FirstRank(s, id)];
      }
    }
  }

  /** The dense loop of `fuse_results`. */
  method AddDense(dense: seq<RetrievalResult>, dTerm: Term, sTerm: Term)
    returns (keys: seq<Value>, table: map<Value, RetrievalResult>)
    ensures TableIs(keys, table, dense, [], dTerm, sTerm)
  {
    keys := [];
    table := map[];
    assert dense[..0] + [] == [];
    for i := 0 to |dense|
      invariant TableIs(keys, table, dense[..i], [], dTerm, sTerm)
    {
      DenseStepAt(keys, table, dense, i, dTerm, sTerm);
      var r := dense[i];
      if r.chunkId !in table {
        keys := keys + [r.chunkId];
      }
      table := table[r.chunkId := r.(score := dTerm(i, r))];
    }
    assert dense[..|dense|] == dense;
  }

  /** DenseStep at position i of the dense results. */
  lemma DenseStepAt(keys: seq<Value>, table: map<Value, RetrievalResult>, dense: seq<RetrievalResult>,
                    i: nat, dTerm: Term, sTerm: Term)
    requires i < |dense| && TableIs(keys, table, dense[..i], [], dTerm, sTerm)
    ensures var r := dense[i];
      TableIs(if r.chunkId in table then keys else keys + [r.chunkId],
              table[r.chunkId := r.(score := dTerm(i, r))], dense[..i + 1], [], dTerm, sTerm)
  {
    PrefixSnoc(dense, i);
    DenseStep(keys, table, dense[..i], dense[i], dTerm, sTerm);
  }

  /** The sparse loop of `fuse_results`. */
  method AddSparse(keys0: seq<Value>, table0: map<Value, RetrievalResult>,
                   dense: seq<RetrievalResult>, sparse: seq<RetrievalResult>, dTerm: Term, sTerm: Term)
    returns (keys: seq<Value>, table: map<Value, RetrievalResult>)
    requires TableIs(keys0, table0, dense, [], dTerm, sTerm)
    ensures TableIs(keys, table, dense, sparse, dTerm, sTerm)
  {
    keys, table := keys0, table0;
    for j := 0 to |sparse|
      invariant TableIs(keys, table, dense, sparse[..j], dTerm, sTerm)
    {
      SparseStepAt(keys, table, dense, sparse, j, dTerm, sTerm);
      var r := sparse[j];
      if r.chunkId !in table {
        keys := keys + [r.chunkId];
      }
      table := table[r.chunkId := SparseUpdate(table, j, r, sTerm)];
    }
    assert sparse[..|sparse|] == sparse;
  }

  /** SparseStep at position j of the sparse results. */
  lemma SparseStepAt(keys: seq<Value>, table: map<Value, RetrievalResult>, dense: seq<RetrievalResult>,
                     sparse: seq<RetrievalResult>, j: nat, dTerm: Term, sTerm: Term)
    requires j < |sparse| && TableIs(keys, table, dense, sparse[..j], dTerm, sTerm)
    ensures var r := sparse[j];
      TableIs(if r.chunkId in table then keys else keys + [r.chunkId],
              table[r.chunkId := SparseUpdate(table, j, r, sTerm)], dense, sparse[..j + 1], dTerm, sTerm)
  {
    PrefixSnoc(sparse, j);
    SparseStep(keys, table, dense, sparse[..j], sparse[j], dTerm, sTerm);
  }

  /** `fuse_results`, for either pair of terms. */
  method FuseWith(dense: seq<RetrievalResult>, sparse: seq<RetrievalResult>,
                  dTerm: Term, sTerm: Term) returns (fused: seq<RetrievalResult>)
    ensures fused == Fused(dense, sparse, dTerm, sTerm)
  {
    var keys, table := AddDense(dense, dTerm, sTerm);
    keys, table := AddSparse(keys, table, dense, sparse, dTerm, sTerm);
    FusedIdsPresent(dense, sparse);
    var values := MapValues(keys, table, dense, sparse, dTerm, sTerm);
    fused := SortDesc(values, ScoreOf);
  }

  /** `result_map.values()`: the entries in the order their keys were
      inserted. */
  method MapValues(keys: seq<Value>, table: map<Value, RetrievalResult>, ghost dense: seq<RetrievalResult>,
                   ghost sparse: seq<RetrievalResult>, ghost dTerm: Term, ghost sTerm: Term)
    returns (values: seq<RetrievalResult>)
    requires TableIs(keys, table, dense, sparse, dTerm, sTerm)
    requires forall i :: 0 <= i < |keys| ==> HasId(dense, keys[i]) || HasId(sparse, keys[i])
    ensures values == Entries(keys, dense, sparse, dTerm, sTerm)
  {
    values := [];
    for k := 0 to |keys|
      invariant values == EntriesUpTo(keys, k, dense, sparse, dTerm, sTerm)
    {
      ValuesStep(keys, table, k, dense, sparse, dTerm, sTerm);
      values := values + [table[keys[k]]];
    }
    assert keys[..|keys|] == keys;
  }

  /** The entries of the first k keys. */
  ghost function EntriesUpTo(keys: seq<Value>, k: nat, dense: seq<RetrievalResult>, sparse: seq<RetrievalResult>,
                             dTerm: Term, sTerm: Term): seq<RetrievalResult>
    requires k <= |keys|
    requires forall i :: 0 <= i < |keys| ==> HasId(dense, keys[i]) || HasId(sparse, keys[i])
  {
    Entries(keys[..k], dense, sparse, dTerm, sTerm)
  }

  /** The next key is in the map, and its value is its entry. */
  lemma ValuesStep(keys: seq<Value>, table: map<Value, RetrievalResult>, k: nat, dense: seq<RetrievalResult>,
                   sparse: seq<RetrievalResult>, dTerm: Term, sTerm: Term)
    requires TableIs(keys, table, dense, sparse, dTerm, sTerm)
    requires forall i :: 0 <= i < |keys| ==> HasId(dense, keys[i]) || HasId(sparse, keys[i])
    requires k < |keys|
    ensures keys[k] in table
    ensures EntriesUpTo(keys, k + 1, dense, sparse, dTerm, sTerm)
            == EntriesUpTo(keys, k, dense, sparse, dTerm, sTerm) + [table[keys[k]]]
  {
    EntriesSnoc(keys, k, dense, sparse, dTerm, sTerm);
  }

  lemma EntriesSnoc(ids: seq<Value>, k: nat, dense: seq<RetrievalResult>, sparse: seq<RetrievalResult>,
                    dTerm: Term, sTerm: Term)
    requires k < |ids|
    requires forall i :: 0 <= i < |ids| ==> HasId(dense, ids[i]) || HasId(sparse, ids[i])
    ensures Entries(ids[..k + 1], dense, sparse, dTerm, sTerm)
            == Entries(ids[..k], dense, sparse, dTerm, sTerm) + [FusedEntry(dense, sparse, dTerm, sTerm, ids[k])]
  {
    assert ids[..k + 1][..k] == ids[..k];
  }

  // ---------------------------------------------------------------------
  // What the fusion promises
  // ---------------------------------------------------------------------

  /** The map's values carry its keys, once each. */
  lemma FusedValuesIds(dense: seq<RetrievalResult>, sparse: seq<RetrievalResult>, dTerm: Term, sTerm: Term)
    ensures var values := FusedValues(dense, sparse, dTerm, sTerm);
      && DistinctKeys(values, ChunkIdOf)
      && (forall id :: id in KeySet(values, ChunkIdOf) <==> HasId(dense, id) || HasId(sparse, id))
      && (forall i :: 0 <= i < |values| ==>
            (HasId(dense, values[i].chunkId) || HasId(sparse, values[i].chunkId))
            && values[i] == FusedEntry(dense, sparse, dTerm, sTerm, values[i].chunkId))
  {
    var u := DedupByKey(dense + sparse, ChunkIdOf);
    var values := FusedValues(dense, sparse, dTerm, sTerm);
    DedupIds(dense + sparse);
    ValuesCarryIds(dense, sparse, dTerm, sTerm);
    SameKeys(values, u);
    forall id ensures id in KeySet(values, ChunkIdOf) <==> HasId(dense, id) || HasId(sparse, id) {
      HasIdAppend(dense, sparse, id);
    }
  }

  /** The de-duplicated results keep one of each chunk id. */
  lemma DedupIds(s: seq<RetrievalResult>)
    ensures var u := DedupByKey(s, ChunkIdOf);
      DistinctKeys(u, ChunkIdOf) && KeySet(u, ChunkIdOf) == KeySet(s, ChunkIdOf)
  {
    DedupFromFacts(s, ChunkIdOf, {});
  }

  /** The fused values are the entries of the de-duplicated ids, in order. */
  lemma ValuesCarryIds(dense: seq<RetrievalResult>, sparse: seq<RetrievalResult>, dTerm: Term, sTerm: Term)
    ensures var u := DedupByKey(dense + sparse, ChunkIdOf);
      var values := FusedValues(dense, sparse, dTerm, sTerm);
      && |values| == |u|
      && forall i :: 0 <= i < |values| ==>
           && values[i].chunkId == u[i].chunkId
           && (HasId(dense, values[i].chunkId) || HasId(sparse, values[i].chunkId))
           && values[i] == FusedEntry(dense, sparse, dTerm, sTerm, values[i].chunkId)
  {
    var u := DedupByKey(dense + sparse, ChunkIdOf);
    FusedIdsPresent(dense, sparse);
    var ids := FusedIds(dense, sparse);
    var values := FusedValues(dense, sparse, dTerm, sTerm);
    forall i | 0 <= i < |values|
      ensures values[i].chunkId == u[i].chunkId
      ensures HasId(dense, values[i].chunkId) || HasId(sparse, values[i].chunkId)
      ensures values[i] == FusedEntry(dense, sparse, dTerm, sTerm, values[i].chunkId)
    {
      assert values[i] == FusedEntry(dense, sparse, dTerm, sTerm, ids[i]);
      assert ids[i] == u[i].chunkId;
    }
  }

  /** Two lists with the same chunk id at every position have the same ids. */
  lemma SameKeys(values: seq<RetrievalResult>, u: seq<RetrievalResult>)
    requires |values| == |u| && forall i :: 0 <= i < |values| ==> values[i].chunkId == u[i].chunkId
    requires DistinctKeys(u, ChunkIdOf)
    ensures DistinctKeys(values, ChunkIdOf) && KeySet(values, ChunkIdOf) == KeySet(u, ChunkIdOf)
  {
    forall id | id in KeySet(u, ChunkIdOf) ensures id in KeySet(values, ChunkIdOf) {
      var i :| 0 <= i < |u| && u[i].chunkId == id;
      assert ChunkIdOf(values[i]) == id;
    }
  }

  /** The fused list has exactly one entry per distinct chunk id of the two
      lists, each the fused entry of its id, in non-increasing score order;
      entries of equal score keep the insertion order of the result map. */
  lemma FusedFacts(dense: seq<RetrievalResult>, sparse: seq<RetrievalResult>, dTerm: Term, sTerm: Term)
    ensures var fused := Fused(dense, sparse, dTerm, sTerm);
      && DistinctKeys(fused, ChunkIdOf)
      && (forall id :: id in KeySet(fused, ChunkIdOf) <==> HasId(dense, id) || HasId(sparse, id))
      && (forall k :: 0 <= k < |fused| ==>
            (HasId(dense, fused[k].chunkId) || HasId(sparse, fused[k].chunkId))
            && fused[k] == FusedEntry(dense, sparse, dTerm, sTerm, fused[k].chunkId))
      && SortedDesc(fused, ScoreOf)
      && forall v :: WithKey(fused, ScoreOf, v) == WithKey(FusedValues(dense, sparse, dTerm, sTerm), ScoreOf, v)
  {
    var values := FusedValues(dense, sparse, dTerm, sTerm);
    var fused := Fused(dense, sparse, dTerm, sTerm);
    FusedValuesIds(dense, sparse, dTerm, sTerm);
    SortDescKeys(values, ScoreOf, ChunkIdOf);
    SortDescFacts(values, ScoreOf);
    forall k | 0 <= k < |fused|
      ensures HasId(dense, fused[k].chunkId) || HasId(sparse, fused[k].chunkId)
      ensures fused[k] == FusedEntry(dense, sparse, dTerm, sTerm, fused[k].chunkId)
    {
      assert fused[k] in multiset(values);
      var i :| 0 <= i < |values| && values[i] == fused[k];
    }
  }

  lemma {:induction false} SumTermsSingle(s: seq<RetrievalResult>, id: Value, term: Term)
    requires DistinctKeys(s, ChunkIdOf)
    ensures !HasId(s, id) ==> SumTerms(s, id, term) == 0.0
    ensures HasId(s, id) ==> SumTerms(s, id, term) == term(LastRank(s, id), s[LastRank(s, id)])
  {
    if s != [] {
      var init := s[..|s| - 1];
      assert DistinctKeys(init, ChunkIdOf) by {
        forall a, b | 0 <= a < b < |init| ensures init[a].chunkId != init[b].chunkId {
          assert init[a] == s[a] && init[b] == s[b];
        }
      }
      SumTermsSingle(init, id, term);
      if s[|s| - 1].chunkId == id {
        assert !HasId(init, id) by {
          forall a | 0 <= a < |init| ensures init[a].chunkId != id { assert init[a] == s[a]; }
        }
      } else if HasId(s, id) {
        var w :| 0 <= w < |s| && s[w].chunkId == id;
        assert init[w] == s[w];
        assert LastRank(s, id) == LastRank(init, id);
      } else {
        assert !HasId(init, id) by {
          forall a | 0 <= a < |init| ensures init[a].chunkId != id { assert init[a] == s[a]; }
        }
      }
    }
  }

  /** With each list free of repeated chunk ids, a chunk found by both
      searches scores `dense_weight * dense + keyword_weight * sparse`, and a
      chunk found by one search only keeps that search's weighted score. */
  lemma WeightedFusionScores(dense: seq<RetrievalResult>, sparse: seq<RetrievalResult>,
                             denseWeight: real, keywordWeight: real, i: nat, j: nat)
    requires DistinctKeys(dense, ChunkIdOf) && DistinctKeys(sparse, ChunkIdOf)
    ensures var dT := DenseTerm("weighted", denseWeight);
      var sT := SparseTerm("weighted", keywordWeight);
      && (i < |dense| && j < |sparse| && dense[i].chunkId == sparse[j].chunkId ==>
            FusedEntry(dense, sparse, dT, sT, dense[i].chunkId)
            == dense[i].(score := dense[i].score * denseWeight + sparse[j].score * keywordWeight))
      && (i < |dense| && !HasId(sparse, dense[i].chunkId) ==>
            FusedEntry(dense, sparse, dT, sT, dense[i].chunkId)
            == dense[i].(score := dense[i].score * denseWeight))
      && (j < |sparse| && !HasId(dense, sparse[j].chunkId) ==>
            FusedEntry(dense, sparse, dT, sT, sparse[j].chunkId)
            == sparse[j].(score := sparse[j].score * keywordWeight))
  {
    if i < |dense| && j < |sparse| && dense[i].chunkId == sparse[j].chunkId {
      WeightedBoth(dense, sparse, denseWeight, keywordWeight, i, j);
    }
    if i < |dense| && !HasId(sparse, dense[i].chunkId) {
      WeightedDenseOnly(dense, sparse, denseWeight, keywordWeight, i);
    }
    if j < |sparse| && !HasId(dense, sparse[j].chunkId) {
      WeightedSparseOnly(dense, sparse, denseWeight, keywordWeight, j);
    }
  }

  lemma WeightedBoth(dense: seq<RetrievalResult>, sparse: seq<RetrievalResult>,
                     denseWeight: real, keywordWeight: real, i: nat, j: nat)
    requires DistinctKeys(dense, ChunkIdOf) && DistinctKeys(sparse, ChunkIdOf)
    requires i < |dense| && j < |sparse| && dense[i].chunkId == sparse[j].chunkId
    ensures FusedEntry(dense, sparse, DenseTerm("weighted", denseWeight), SparseTerm("weighted", keywordWeight), dense[i].chunkId)
         == dense[i].(score := dense[i].score * denseWeight + sparse[j].score * keywordWeight)
  {
    var sT := SparseTerm("weighted", keywordWeight);
    var id := dense[i].chunkId;
    SumTermsSingle(sparse, id, sT);
    assert LastRank(dense, id) == i;
    assert LastRank(sparse, id) == j;
  }

  lemma WeightedDenseOnly(dense: seq<RetrievalResult>, sparse: seq<RetrievalResult>,
                          denseWeight: real, keywordWeight: real, i: nat)
    requires DistinctKeys(dense, ChunkIdOf) && DistinctKeys(sparse, ChunkIdOf)
    requires i < |dense| && !HasId(sparse, dense[i].chunkId)
    ensures FusedEntry(dense, sparse, DenseTerm("weighted", denseWeight), SparseTerm("weighted", keywordWeight), dense[i].chunkId)
         == dense[i].(score := dense[i].score * denseWeight)
  {
    var sT := SparseTerm("weighted", keywordWeight);
    var id := dense[i].chunkId;
    SumTermsSingle(sparse, id, sT);
    assert LastRank(dense, id) == i;
  }

  lemma WeightedSparseOnly(dense: seq<RetrievalResult>, sparse: seq<RetrievalResult>,
                           denseWeight: real, keywordWeight: real, j: nat)
    requires DistinctKeys(sparse, ChunkIdOf)
    requires j < |sparse| && !HasId(dense, sparse[j].chunkId)
    ensures FusedEntry(dense, sparse, DenseTerm("weighted", denseWeight), SparseTerm("weighted", keywordWeight), sparse[j].chunkId)
         == sparse[j].(score := sparse[j].score * keywordWeight)
  {
    var sT := SparseTerm("weighted", keywordWeight);
    var id := sparse[j].chunkId;
    SumTermsSingle(sparse, id, sT);
    assert LastRank(sparse, id) == j;
    assert FirstRank(sparse, id) == j;
  }

  /** With each list free of repeated chunk ids, every reciprocal-rank score
      lies in (0, 2/61]. */
  lemma RrfScoreBounds(dense: seq<RetrievalResult>, sparse: seq<RetrievalResult>,
                       fusionMethod: string, id: Value)
    requires fusionMethod != "weighted"
    requires DistinctKeys(dense, ChunkIdOf) && DistinctKeys(sparse, ChunkIdOf)
    requires HasId(dense, id) || HasId(sparse, id)
    ensures var e := FusedEntry(dense, sparse, DenseTerm(fusionMethod, 0.6),
                                SparseTerm(fusionMethod, 0.4), id);
      0.0 < e.score <= 2.0 / 61.0
  {
    var sT := SparseTerm(fusionMethod, 0.4);
    SumTermsSingle(sparse, id, sT);
  }

  /** A chunk id repeated in the sparse list collects one term per
      occurrence, which can exceed 2/61. */
  lemma RrfRepeatedSparseExceeds(r: RetrievalResult)
    ensures var sparse := [r, r, r];
      HasId(sparse, r.chunkId) &&
      FusedEntry([], sparse, DenseTerm("rrf", 0.6), SparseTerm("rrf", 0.4), r.chunkId).score
        > 2.0 / 61.0
  {
    var sparse := [r, r, r];
    var sT := SparseTerm("rrf", 0.4);
    assert sparse[0].chunkId == r.chunkId;
    assert !HasId([], r.chunkId);
    assert sparse[..2] == [r, r] && [r, r][..1] == [r] && [r][..0] == [];
    assert SumTerms([r], r.chunkId, sT) == 1.0 / 61.0;
    assert SumTerms([r, r], r.chunkId, sT) == 1.0 / 61.0 + 1.0 / 62.0;
    assert SumTerms(sparse, r.chunkId, sT) == 1.0 / 61.0 + 1.0 / 62.0 + 1.0 / 63.0;
  }

  /** The loop of `sparse_search` over the top positions; `None` when a
      position lies past the corpus, which raises. */
  method CollectSparse(docs: seq<Doc>, scores: seq<real>, top: seq<nat>, useFilter: bool,
                       f: MetadataFilter) returns (found: Option<seq<RetrievalResult>>)
    ensures found == SparseFrom(docs, scores, top, useFilter, f)
  {
    var results: seq<RetrievalResult> := [];
    for i := 0 to |top|
      invariant SparseFrom(docs, scores, top[..i], useFilter, f) == Some(results)
    {
      assert top[..i + 1][..i] == top[..i];
      var idx := top[i];
      if idx >= |docs| {
        SparseFromNone(docs, scores, top, i + 1, useFilter, f);
        return None;
      }
      var doc := docs[idx];
      if useFilter && !MatchesFilter(doc, f) {
        continue;
      }
      results := results + [DocResult(doc, ScoreAt(scores, idx))];
    }
    assert top[..|top|] == top;
    found := Some(results);
  }

  // ---------------------------------------------------------------------
  // The agent
  // ---------------------------------------------------------------------

  /** The services behind the agent: query embedding (`None` on failure),
      vector search, the scroll over the whole collection (`None` when it
      raises), whether the BM25 index builds from the corpus, and BM25
      scoring. */
  datatype Services = Services(embed: string -> Option<seq<real>>, search: VectorSearch,
                               scroll: Option<seq<Payload>>, indexBuilds: bool,
                               bm25: Bm25Scorer)

  function Corpus(docs: seq<Doc>): (c: seq<seq<string>>)
    ensures |c| == |docs| && forall i :: 0 <= i < |docs| ==> c[i] == Tokenize(docs[i].text)
  {
    seq(|docs|, i requires 0 <= i < |docs| => Tokenize(docs[i].text))
  }

  /** The index state `sparse_search` leaves behind: building the index
      again from the same services would change nothing. */
  predicate IndexSettled(index: Option<seq<seq<string>>>, docs: seq<Doc>, svc: Services)
  {
    index.Some? || svc.scroll.None? || (docs == Map(svc.scroll.value, DocFromPayload) && !svc.indexBuilds)
  }

  /** What `sparse_search` returns over a given index and documents:
      nothing without an index or documents. */
  function SparseOver(index: Option<seq<seq<string>>>, docs: seq<Doc>, query: string, topK: int,
                      f: MetadataFilter, useFilter: bool, svc: Services): seq<RetrievalResult>
  {
    if index.None? || docs == [] then []
    else SparseResults(docs, svc.bm25(index.value, Tokenize(query)), topK, |f| > 0 && useFilter, f)
  }

  /** What `retrieve` returns for a question, given the BM25 index and
      documents `sparse_search` sees: nothing when the question cannot be
      embedded, else dense search for twice `top_k`, fused with sparse
      search when BM25 is enabled, cut to `top_k`. */
  function RetrievalOf(r: RetrieverAgent, index: Option<seq<seq<string>>>, docs: seq<Doc>,
                       query: string, topK: int, f: MetadataFilter, svc: Services): seq<RetrievalResult>
  {
    match svc.embed(query)
    case None => []
    case Some(vec) =>
      var dense := DenseSearch(svc.search, vec, topK * 2, f, r.enableMetadataFilter);
      if r.enableBm25 then
        PySliceTo(Fused(dense, SparseOver(index, docs, query, topK * 2, f, r.enableMetadataFilter, svc),
                        DenseTerm(r.fusionMethod, r.denseWeight), SparseTerm(r.fusionMethod, r.keywordWeight)),
                  topK)
      else PySliceTo(dense, topK)
  }

  class RetrieverAgent {
    const enableBm25: bool
    const fusionMethod: string
    const denseWeight: real
    const keywordWeight: real
    const enableMetadataFilter: bool
    /** The tokenised corpus the BM25 index was built from; `None` while
        there is no index. */
    var bm25Index: Option<seq<seq<string>>>
    var bm25Documents: seq<Doc>

    constructor(enableBm25: bool, fusionMethod: string, denseWeight: real,
                keywordWeight: real, enableMetadataFilter: bool)
      ensures this.enableBm25 == enableBm25 && this.fusionMethod == fusionMethod
      ensures this.denseWeight == denseWeight && this.keywordWeight == keywordWeight
      ensures this.enableMetadataFilter == enableMetadataFilter
      ensures bm25Index.None? && bm25Documents == []
    {
      this.enableBm25 := enableBm25;
      this.fusionMethod := fusionMethod;
      this.denseWeight := denseWeight;
      this.keywordWeight := keywordWeight;
      this.enableMetadataFilter := enableMetadataFilter;
      bm25Index := None;
      bm25Documents := [];
    }

    /** `_build_bm25_index`: a failing scroll leaves the documents and no
        index; otherwise the documents are replaced and the index is built
        from their lower-cased, whitespace-split texts if it can be. */
    method BuildBm25Index(scroll: Option<seq<Payload>>, indexBuilds: bool)
      modifies this
      ensures scroll.None? ==> bm25Index.None? && bm25Documents == old(bm25Documents)
      ensures scroll.Some? ==> bm25Documents == Map(scroll.value, DocFromPayload)
      ensures scroll.Some? ==> bm25Index == (if indexBuilds then Some(Corpus(bm25Documents)) else None)
    {
      if scroll.None? {
        bm25Index := None;
        return;
      }
      var points := scroll.value;
      bm25Documents := [];
      for i := 0 to |points|
        invariant bm25Documents == Map(points[..i], DocFromPayload)
      {
        assert points[..i + 1] == points[..i] + [points[i]];
        bm25Documents := bm25Documents + [DocFromPayload(points[i])];
      }
      assert points[..|points|] == points;
      var corpus := Corpus(bm25Documents);
      if indexBuilds {
        bm25Index := Some(corpus);
      } else {
        bm25Index := None;
      }
    }

    /** What `sparse_search` returns with the index as it stands: nothing
        without an index or documents. */
    ghost function SparseWithIndex(query: string, topK: int, f: MetadataFilter, svc: Services): seq<RetrievalResult>
      reads this
    {
      SparseOver(bm25Index, bm25Documents, query, topK, f, enableMetadataFilter, svc)
    }

    /** `sparse_search`: builds the index first if there is none. */
    method SparseSearch(query: string, topK: int, f: MetadataFilter, svc: Services)
      returns (results: seq<RetrievalResult>)
      modifies this
      ensures old(bm25Index).Some? ==> bm25Index == old(bm25Index) && bm25Documents == old(bm25Documents)
      ensures old(bm25Index).None? && svc.scroll.Some? ==>
                bm25Documents == Map(svc.scroll.value, DocFromPayload)
                && bm25Index == (if svc.indexBuilds then Some(Corpus(bm25Documents)) else None)
      ensures old(bm25Index).None? && svc.scroll.None? ==>
                bm25Index.None? && bm25Documents == old(bm25Documents)
      ensures bm25Index.None? || bm25Documents == [] ==> results == []
      ensures bm25Index.Some? && bm25Documents != [] ==>
                results == SparseResults(bm25Documents, svc.bm25(bm25Index.value, Tokenize(query)),
                                         topK, |f| > 0 && enableMetadataFilter, f)
      ensures results == SparseWithIndex(query, topK, f, svc)
      ensures IndexSettled(bm25Index, bm25Documents, svc)
      ensures old(IndexSettled(bm25Index, bm25Documents, svc)) ==>
                bm25Index == old(bm25Index) && bm25Documents == old(bm25Documents)
    {
      if bm25Index.None? {
        BuildBm25Index(svc.scroll, svc.indexBuilds);
      }
      if bm25Index.None? || bm25Documents == [] {
        return [];
      }
      var scores := svc.bm25(bm25Index.value, Tokenize(query));
      var found := CollectSparse(bm25Documents, scores, TopIndices(scores, topK),
                                 |f| > 0 && enableMetadataFilter, f);
      results := if found.None? then [] else PySliceTo(found.value, topK);
    }

    /** `fuse_results` with this agent's weights. */
    method FuseResults(dense: seq<RetrievalResult>, sparse: seq<RetrievalResult>, fusion: string)
      returns (fused: seq<RetrievalResult>)
      ensures fused == Fused(dense, sparse, DenseTerm(fusion, denseWeight),
                             SparseTerm(fusion, keywordWeight))
    {
      fused := FuseWith(dense, sparse, DenseTerm(fusion, denseWeight),
                        SparseTerm(fusion, keywordWeight));
    }

    /** `retrieve`: no results when the query cannot be embedded; dense
        search for twice `top_k`, fused with sparse search when BM25 is
        enabled, then cut to `top_k` with Python slicing. */
    method Retrieve(query: string, topK: int, f: MetadataFilter, svc: Services)
      returns (results: seq<RetrievalResult>)
      modifies this
      ensures svc.embed(query).None? ==> results == []
      ensures topK >= 0 ==> |results| <= topK
      ensures svc.embed(query).Some? && !enableBm25 ==>
                results == PySliceTo(DenseSearch(svc.search, svc.embed(query).value, topK * 2, f,
                                                 enableMetadataFilter), topK)
      ensures svc.embed(query).Some? && enableBm25 ==>
                results == PySliceTo(Fused(DenseSearch(svc.search, svc.embed(query).value,
                                                      topK * 2, f, enableMetadataFilter),
                                          SparseWithIndex(query, topK * 2, f, svc),
                                          DenseTerm(fusionMethod, denseWeight),
                                          SparseTerm(fusionMethod, keywordWeight)), topK)
      ensures !enableBm25 ==> bm25Index == old(bm25Index) && bm25Documents == old(bm25Documents)
      ensures results == RetrievalOf(this, bm25Index, bm25Documents, query, topK, f, svc)
      ensures enableBm25 && svc.embed(query).Some? ==> IndexSettled(bm25Index, bm25Documents, svc)
      ensures old(IndexSettled(bm25Index, bm25Documents, svc)) ==>
                bm25Index == old(bm25Index) && bm25Documents == old(bm25Documents)
    {
      var vec := svc.embed(query);
      if vec.None? {
        return [];
      }
      var dense := DenseSearch(svc.search, vec.value, topK * 2, f, enableMetadataFilter);
      var all: seq<RetrievalResult>;
      if enableBm25 {
        var sparse := SparseSearch(query, topK * 2, f, svc);
        all := FuseResults(dense, sparse, fusionMethod);
      } else {
        all := dense;
      }
      results := PySliceTo(all, topK);
    }
  }
}
