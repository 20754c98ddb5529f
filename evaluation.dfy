/** src/agents/evaluation_agent.py: scoring one query's retrieval and
    answer. The model that rates passages and the model that rates answers
    are parameters (their raw reply, `None` when the call raises), and so
    is `json.loads`. Scores and latencies are reals. */
module Evaluation {
  import opened Seqs
  import opened Text
  import Retriever
  import Utils

  // ---------------------------------------------------------------------
  // float(s)
  // ---------------------------------------------------------------------

  function Pow10(k: nat): (r: nat)
    ensures r >= 1
  {
    if k == 0 then 1 else 10 * Pow10(k - 1)
  }

  /** `float(s)` for an unsigned decimal: digits, an optional point and
      more digits, with at least one digit in all. */
  function ParseUnsigned(s: string): (r: Option<real>)
    ensures r.Some? ==> r.value >= 0.0
  {
    var p := IndexOf(s, '.');
    var whole := s[..p];
    var frac := if p < |s| then s[p + 1..] else "";
    if AllDigits(whole) && AllDigits(frac) && (whole != "" || frac != "") then
      Some(DigitsValue(whole) as real + DigitsValue(frac) as real / Pow10(|frac|) as real)
    else None
  }

  /** `float(s)` for a decimal with an optional sign; None where Python
      raises ValueError. */
  function ParseFloat(s: string): Option<real>
  {
    if s != [] && (s[0] == '-' || s[0] == '+') then
      var v := ParseUnsigned(s[1..]);
      if v.None? then None else if s[0] == '-' then Some(-v.value) else v
    else ParseUnsigned(s)
  }

  /** A string of digits has no '.'. */
  lemma NoPointInDigits(s: string)
    requires AllDigits(s)
    ensures IndexOf(s, '.') == |s|
  {
    assert forall i :: 0 <= i < |s| ==> s[i] != '.';
  }

  /** A string with no '.' is a whole number, not divided by anything. */
  lemma ParseUnsignedOfDigits(s: string)
    requires IsDigitString(s)
    ensures ParseUnsigned(s) == Some(DigitsValue(s) as real)
  {
    NoPointInDigits(s);
    var p := IndexOf(s, '.');
    assert s[..p] == s;
    var frac: string := "";
    assert AllDigits(frac) && s != "";
    assert DigitsValue(frac) == 0 && Pow10(|frac|) == 1;
    assert DigitsValue(frac) as real / Pow10(|frac|) as real == 0.0;
  }

  /** `float(str(n)) == n` and `float(str(-n)) == -n`: a reply that is an
      integer is read as that integer. */
  lemma ParseFloatOfInt(n: int)
    ensures ParseFloat(IntToString(n)) == Some(n as real)
  {
    var d := NatToString(if n >= 0 then n else -n);
    ParseUnsignedOfDigits(d);
    DigitsValueOfNatToString(if n >= 0 then n else -n);
    if n < 0 {
      assert IntToString(n)[1..] == d;
    } else {
      assert d[0] != '-' && d[0] != '+' by { assert IsDigit(d[0]); }
    }
  }

  /** "7.5" reads as 7.5, and "high" does not read at all. */
  lemma ParseFloatExamples()
    ensures ParseFloat("7.5") == Some(7.5)
    ensures ParseFloat("high").None?
  {
    var s := "7.5";
    assert IndexOf(s, '.') == 1;
    assert s[..1] == "7" && s[2..] == "5";
    assert DigitsValue("7") == 7 && DigitsValue("5") == 5;
    var t := "high";
    assert !IsDigit(t[0]);
    assert IndexOf(t, '.') == 4 by {
      assert t[0] != '.' && t[1] != '.' && t[2] != '.' && t[3] != '.';
    }
    assert t[..4] == t;
  }

  // ---------------------------------------------------------------------
  // evaluate_retrieval_relevance
  // ---------------------------------------------------------------------

  /** Only the first 5 results are rated. */
  const RatedResults: nat := 5
  /** Scores at or above this count as relevant. */
  const RelevantScore: real := 6.0
  /** The score of a reply that is not a number. */
  const UnparsedScore: real := 5.0

  /** The rating model: its reply to (query, passage), `None` when the
      call raises. */
  type Rater = (string, string) -> Option<string>

  /** The passage shown to the model: the first 500 characters. */
  function Passage(r: Retriever.RetrievalResult): (p: string)
    ensures |p| <= 500 && |p| <= |r.text| && p == r.text[..|p|]
  {
    PySliceTo(r.text, 500)
  }

  /** The model's reply for each rated result, in order. */
  function Replies(rater: Rater, query: string, results: seq<Retriever.RetrievalResult>): (rs: seq<Option<string>>)
    ensures |rs| == Min(|results|, RatedResults)
    ensures forall k :: 0 <= k < |rs| ==> rs[k] == rater(query, Passage(results[k]))
  {
    Map(PySliceTo(results, RatedResults), (r: Retriever.RetrievalResult) => rater(query, Passage(r)))
  }

  /** All replies, or None when one of the calls raised. */
  function Succeeded(replies: seq<Option<string>>): (r: Option<seq<string>>)
  {
    if replies == [] then Some([])
    else
      var rest := Succeeded(replies[1..]);
      if replies[0].None? || rest.None? then None else Some([replies[0].value] + rest.value)
  }

  /** The replies come back exactly when no call raised, and then in
      order, one for each call. */
  lemma {:induction false} SucceededFacts(replies: seq<Option<string>>)
    ensures Succeeded(replies).None? <==> exists k :: 0 <= k < |replies| && replies[k].None?
    ensures Succeeded(replies).Some? ==>
              |Succeeded(replies).value| == |replies| &&
              forall k :: 0 <= k < |replies| ==> replies[k] == Some(Succeeded(replies).value[k])
  {
    if replies != [] {
      var tail := replies[1..];
      SucceededFacts(tail);
      if Succeeded(tail).None? {
        var k :| 0 <= k < |tail| && tail[k].None?;
        assert replies[k + 1].None?;
      }
      if Succeeded(replies).Some? {
        var t := Succeeded(replies).value;
        forall k | 0 <= k < |replies| ensures replies[k] == Some(t[k]) {
          if k > 0 { assert replies[k] == tail[k - 1]; }
        }
      }
    }
  }

  /** A reply that counts: `if response.text`. */
  predicate NonEmpty(reply: string) { reply != "" }

  /** The score of a non-empty reply: the number it reads as once
      stripped, else 5.0. */
  function ReplyScore(reply: string): (score: real)
    ensures ParseFloat(Strip(reply)).Some? ==> score == ParseFloat(Strip(reply)).value
    ensures ParseFloat(Strip(reply)).None? ==> score == UnparsedScore
  {
    var v := ParseFloat(Strip(reply));
    if v.Some? then v.value else UnparsedScore
  }

  /** `scores`: one per non-empty reply, in order. */
  function ScoresOf(replies: seq<string>): (scores: seq<real>)
    ensures |scores| <= |replies|
  {
    Map(Filter(replies, NonEmpty), ReplyScore)
  }

  /** `sum(s) / len(s) if s else 0.0` */
  function Mean(s: seq<real>): real
  {
    if s == [] then 0.0 else Sum(s) / |s| as real
  }

  /** `sum(1 for s in scores if s >= 6.0)` */
  function NumRelevant(scores: seq<real>): (n: nat)
    ensures n <= |scores|
  {
    |Filter(scores, (x: real) => x >= RelevantScore)|
  }

  /** `num_relevant / len(scores) if scores else 0.0` */
  function Precision(scores: seq<real>): (p: real)
    ensures 0.0 <= p <= 1.0
    ensures p == 0.0 <==> scores == [] || NumRelevant(scores) == 0
    ensures p == 1.0 <==> scores != [] && NumRelevant(scores) == |scores|
  {
    if scores == [] then 0.0
    else
      RatioFacts(NumRelevant(scores), |scores|);
      NumRelevant(scores) as real / |scores| as real
  }

  /** A count out of a positive total is a ratio in [0, 1], 0 only for a
      count of 0 and 1 only for the whole total. */
  lemma RatioFacts(k: nat, total: nat)
    requires 0 < total && k <= total
    ensures var p := k as real / total as real;
      && 0.0 <= p <= 1.0
      && (p == 0.0 <==> k == 0)
      && (p == 1.0 <==> k == total)
  {
    DivBetween(k as real, total as real, 0.0, 1.0);
    Utils.DivAtLeast(k as real, total as real, 1.0);
  }

  /** A quotient lies between the bounds its numerator lies between once
      they are scaled by the divisor. */
  lemma DivBetween(x: real, t: real, lo: real, hi: real)
    requires t > 0.0
    ensures lo * t <= x <= hi * t <==> lo <= x / t <= hi
    ensures x / t == lo <==> x == lo * t
  {
    assert x == (x / t) * t;
    if x / t < lo { assert (x / t) * t < lo * t; }
    if x / t > hi { assert (x / t) * t > hi * t; }
    if x / t >= lo { assert (x / t) * t >= lo * t; }
    if x / t <= hi { assert (x / t) * t <= hi * t; }
  }

  /** The dictionary `evaluate_retrieval_relevance` returns: `scores` is
      present only after rating, and `failed` stands for the `error` key. */
  datatype Relevance = Relevance(avgRelevance: real, numRelevant: nat, precision: real,
                                 scores: Option<seq<real>>, failed: bool)

  function Metrics(scores: seq<real>): Relevance
  {
    Relevance(Mean(scores), NumRelevant(scores), Precision(scores), Some(scores), false)
  }

  /** `evaluate_retrieval_relevance` */
  /** The scores of the rated results; None when a call raised. */
  function RatedScores(rater: Rater, query: string, results: seq<Retriever.RetrievalResult>): Option<seq<real>>
  {
    var replies := Succeeded(Replies(rater, query, results));
    if replies.None? then None else Some(ScoresOf(replies.value))
  }

  function RelevanceOf(rater: Rater, query: string, results: seq<Retriever.RetrievalResult>): Relevance
  {
    if results == [] then Relevance(0.0, 0, 0.0, None, false)
    else
      var scores := RatedScores(rater, query, results);
      if scores.None? then Relevance(0.0, 0, 0.0, None, true)
      else Metrics(scores.value)
  }

  /** No results: zero scores and nothing rated. A call that raises: zero
      scores and the error flagged, whatever the other replies were.
      Otherwise: at most 5 scores, one per non-empty reply, and the metrics
      computed from them. */
  lemma RelevanceFacts(rater: Rater, query: string, results: seq<Retriever.RetrievalResult>)
    ensures var r := RelevanceOf(rater, query, results);
      && (results == [] ==> r.avgRelevance == 0.0 && r.numRelevant == 0 && r.precision == 0.0 && r.scores.None? && !r.failed)
      && (r.failed <==> exists k :: 0 <= k < |results| && k < RatedResults && rater(query, Passage(results[k])).None?)
      && (r.failed ==> r.avgRelevance == 0.0 && r.numRelevant == 0 && r.precision == 0.0 && r.scores.None?)
      && (results != [] && !r.failed ==>
            && r.scores.Some?
            && |r.scores.value| <= RatedResults && |r.scores.value| <= |results|
            && r.avgRelevance == Mean(r.scores.value)
            && r.numRelevant == NumRelevant(r.scores.value)
            && r.precision == Precision(r.scores.value))
      && 0.0 <= r.precision <= 1.0 && r.numRelevant <= RatedResults
  {
    var rs := Replies(rater, query, results);
    SucceededFacts(rs);
    if results != [] && Succeeded(rs).None? {
      var k :| 0 <= k < |rs| && rs[k].None?;
      assert rater(query, Passage(results[k])).None?;
    }
  }

  /** Every rated reply that is not a number scores 5.0; one that reads as
      a number scores that number; an empty reply scores nothing. */
  lemma ScoresOfFacts(replies: seq<string>)
    ensures Filter(replies, NonEmpty) == [] ==> ScoresOf(replies) == []
    ensures forall x :: x in ScoresOf(replies) ==>
              exists t :: t in replies && t != "" && x == ReplyScore(t)
  {
    var kept := Filter(replies, NonEmpty);
    forall x | x in ScoresOf(replies) ensures exists t :: t in replies && t != "" && x == ReplyScore(t) {
      var i :| 0 <= i < |kept| && ScoresOf(replies)[i] == x;
      assert kept[i] in replies && NonEmpty(kept[i]);
    }
  }

  /** The mean lies between any bounds of the values. */
  lemma {:induction false} SumBetween(s: seq<real>, lo: real, hi: real)
    requires forall i :: 0 <= i < |s| ==> lo <= s[i] <= hi
    ensures |s| as real * lo <= Sum(s) <= |s| as real * hi
  {
    if s != [] {
      SumBetween(s[1..], lo, hi);
      assert s[0] == s[0];
    }
  }

  lemma MeanBetween(s: seq<real>, lo: real, hi: real)
    requires s != []
    requires forall i :: 0 <= i < |s| ==> lo <= s[i] <= hi
    ensures lo <= Mean(s) <= hi
  {
    SumBetween(s, lo, hi);
    DivBetween(Sum(s), |s| as real, lo, hi);
  }

  // ---------------------------------------------------------------------
  // evaluate_response_fluency
  // ---------------------------------------------------------------------

  /** What `json.loads` makes of the extracted text: not JSON at all
      (JSONDecodeError, a ValueError); an object whose values are all
      numbers, key by key; or JSON on which `sum(scores.values())` raises. */
  datatype Json = NotJson | NumberObject(entries: seq<(string, real)>) | OtherJson

  type JsonLoads = string -> Json

  /** `text[text.find('{') : text.rfind('}') + 1]`, when the guard
      `start >= 0 and end > start` holds. */
  function JsonSpan(text: string): Option<string>
  {
    var start := Find(text, '{');
    var end := RFind(text, '}') + 1;
    if start >= 0 && end > start then Some(text[start..end]) else None
  }

  /** There is a span exactly when a '{' comes before a '}'. */
  lemma JsonSpanIff(text: string)
    ensures JsonSpan(text).Some? <==>
              exists i, j :: 0 <= i < j < |text| && text[i] == '{' && text[j] == '}'
  {
    var start := Find(text, '{');
    var last := RFind(text, '}');
    if exists i, j :: 0 <= i < j < |text| && text[i] == '{' && text[j] == '}' {
      var i, j :| 0 <= i < j < |text| && text[i] == '{' && text[j] == '}';
      assert start <= i && j <= last;
    }
    if JsonSpan(text).Some? {
      assert text[start] == '{' && start < last && text[last] == '}';
    }
  }

  /** The span runs from the first '{' to the last '}'. */
  lemma JsonSpanShape(text: string)
    requires JsonSpan(text).Some?
    ensures var span := JsonSpan(text).value;
      && |span| >= 2 && span[0] == '{' && span[|span| - 1] == '}'
      && span == text[Find(text, '{')..RFind(text, '}') + 1]
  {
    var start := Find(text, '{');
    var last := RFind(text, '}');
    assert text[start] == '{' && start < last;
    var span := text[start..last + 1];
    assert span[0] == text[start] && span[|span| - 1] == text[last];
  }

  /** The four scores and their `overall`; `failed` stands for the `error`
      key. */
  datatype Fluency = Fluency(entries: seq<(string, real)>, overall: real, failed: bool)

  function Values(entries: seq<(string, real)>): (vs: seq<real>)
    ensures |vs| == |entries|
    ensures forall k :: 0 <= k < |entries| ==> vs[k] == entries[k].1
  {
    Map(entries, (e: (string, real)) => e.1)
  }

  function Uniform(v: real): (entries: seq<(string, real)>)
  {
    [("fluency", v), ("coherence", v), ("completeness", v), ("conciseness", v)]
  }

  /** All 7.0: the answer when the reply could not be read. */
  const DefaultFluency: Fluency := Fluency(Uniform(7.0), 7.0, false)
  /** All 0.0: the answer when anything else raised. */
  const FailedFluency: Fluency := Fluency(Uniform(0.0), 0.0, true)

  /** `evaluate_response_fluency`, given the model's reply (None when the
      call raises). An empty object divides by zero and raises too. */
  function FluencyOf(reply: Option<string>, loads: JsonLoads): Fluency
  {
    if reply.None? then FailedFluency
    else if reply.value == "" then DefaultFluency
    else
      var span := JsonSpan(Strip(reply.value));
      if span.None? then DefaultFluency
      else match loads(span.value)
        case NotJson => DefaultFluency
        case OtherJson => FailedFluency
        case NumberObject(entries) =>
          if entries == [] then FailedFluency
          else Fluency(entries, Sum(Values(entries)) / |entries| as real, false)
  }

  /** `overall` is always the mean of the scores reported with it. */
  lemma FluencyIsMean(reply: Option<string>, loads: JsonLoads)
    ensures var f := FluencyOf(reply, loads);
      f.entries != [] && f.overall == Mean(Values(f.entries))
  {
    var f := FluencyOf(reply, loads);
    if f == DefaultFluency {
      UniformIsMean(7.0);
    } else if f == FailedFluency {
      UniformIsMean(0.0);
    }
  }

  /** The four equal scores of a fallback have that score as their mean. */
  lemma UniformIsMean(v: real)
    ensures Uniform(v) != [] && Mean(Values(Uniform(v))) == v
  {
    var vs := Values(Uniform(v));
    assert vs == Repeat(v, 4);
    SumRepeat(v, 4);
  }

  lemma {:induction false} SumRepeat(v: real, n: nat)
    ensures Sum(Repeat(v, n)) == n as real * v
  {
    if n > 0 {
      SumRepeat(v, n - 1);
      assert Repeat(v, n)[1..] == Repeat(v, n - 1);
    }
  }

  /** So `overall` lies between any bounds of the scores. */
  lemma FluencyBounded(reply: Option<string>, loads: JsonLoads, lo: real, hi: real)
    requires var f := FluencyOf(reply, loads);
      forall k :: 0 <= k < |f.entries| ==> lo <= f.entries[k].1 <= hi
    ensures lo <= FluencyOf(reply, loads).overall <= hi
  {
    var f := FluencyOf(reply, loads);
    FluencyIsMean(reply, loads);
    MeanBetween(Values(f.entries), lo, hi);
  }

  /** A call that raises reports zeros and the error; a reply with no
      '{' ... '}' span reports the default 7.0; only a readable object of
      numbers reports scores of its own. */
  lemma FluencyFallbacks(reply: Option<string>, loads: JsonLoads)
    ensures var f := FluencyOf(reply, loads);
      && (reply.None? ==> f == FailedFluency)
      && (reply.Some? && JsonSpan(Strip(reply.value)).None? ==> f == DefaultFluency)
      && (f.failed ==> f == FailedFluency)
      && (f != DefaultFluency && f != FailedFluency ==>
            reply.Some? && JsonSpan(Strip(reply.value)).Some? &&
            loads(JsonSpan(Strip(reply.value)).value) == NumberObject(f.entries))
  {
    if reply.Some? && reply.value == "" {
      assert JsonSpan(Strip(reply.value)).None? by {
        assert Strip("") == "";
      }
    }
  }

  // ---------------------------------------------------------------------
  // evaluate_query
  // ---------------------------------------------------------------------

  /** Responses longer than this are cut in the preview. */
  const PreviewLength: nat := 200

  /** `response[:200] + "..." if len(response) > 200 else response` */
  function Preview(response: string): (p: string)
    ensures |response| <= PreviewLength ==> p == response
    ensures |response| > PreviewLength ==>
              |p| == PreviewLength + 3 && p[..PreviewLength] == response[..PreviewLength] && p[PreviewLength..] == "..."
  {
    if |response| > PreviewLength then response[..PreviewLength] + "..." else response
  }

  /** The evaluation of one query; the timestamp is left out. */
  datatype QueryEvaluation = QueryEvaluation(query: string, responsePreview: string, numRetrieved: nat,
                                             retrieval: Relevance, fluency: Fluency,
                                             latencyMs: real, latencyS: real)

  /** `evaluate_query`: the answer's model is asked about (response, query). */
  function EvaluationOf(query: string, results: seq<Retriever.RetrievalResult>, response: string, latencyMs: real,
                        rater: Rater, fluencyRater: Rater, loads: JsonLoads): (e: QueryEvaluation)
    ensures e.latencyS * 1000.0 == e.latencyMs == latencyMs
    ensures e.numRetrieved == |results|
  {
    QueryEvaluation(query, Preview(response), |results|, RelevanceOf(rater, query, results),
                    FluencyOf(fluencyRater(response, query), loads), latencyMs, latencyMs / 1000.0)
  }

  // ---------------------------------------------------------------------
  // _calculate_aggregate_metrics
  // ---------------------------------------------------------------------

  function MinOf(s: seq<real>): (m: real)
    requires s != []
    ensures m in s && forall i :: 0 <= i < |s| ==> m <= s[i]
  {
    if |s| == 1 then s[0]
    else
      var rest := MinOf(s[1..]);
      assert forall i :: 1 <= i < |s| ==> s[i] == s[1..][i - 1];
      if s[0] <= rest then s[0] else rest
  }

  function MaxOf(s: seq<real>): (m: real)
    requires s != []
    ensures m in s && forall i :: 0 <= i < |s| ==> s[i] <= m
  {
    if |s| == 1 then s[0]
    else
      var rest := MaxOf(s[1..]);
      assert forall i :: 1 <= i < |s| ==> s[i] == s[1..][i - 1];
      if s[0] >= rest then s[0] else rest
  }

  datatype Aggregate = Aggregate(avgRelevance: real, avgPrecision: real, avgFluency: real,
                                 avgLatencyMs: real, minLatencyMs: real, maxLatencyMs: real)

  function AvgRelevanceOf(e: QueryEvaluation): real { e.retrieval.avgRelevance }
  function PrecisionOf(e: QueryEvaluation): real { e.retrieval.precision }
  function OverallOf(e: QueryEvaluation): real { e.fluency.overall }
  function LatencyOf(e: QueryEvaluation): real { e.latencyMs }

  /** `_calculate_aggregate_metrics`: None stands for `{}`. */
  function AggregateOf(evals: seq<QueryEvaluation>): (r: Option<Aggregate>)
    ensures r.None? <==> evals == []
  {
    if evals == [] then None
    else
      var latencies := Map(evals, LatencyOf);
      Some(Aggregate(Mean(Map(evals, AvgRelevanceOf)), Mean(Map(evals, PrecisionOf)), Mean(Map(evals, OverallOf)),
                     Mean(latencies), MinOf(latencies), MaxOf(latencies)))
  }

  /** The least latency is at most the mean, which is at most the
      greatest; both are latencies of some query and bound all of them. */
  lemma AggregateLatencies(evals: seq<QueryEvaluation>)
    requires evals != []
    ensures var a := AggregateOf(evals).value;
      && a.minLatencyMs <= a.avgLatencyMs <= a.maxLatencyMs
      && (exists i :: 0 <= i < |evals| && evals[i].latencyMs == a.minLatencyMs)
      && (exists i :: 0 <= i < |evals| && evals[i].latencyMs == a.maxLatencyMs)
      && (forall i :: 0 <= i < |evals| ==> a.minLatencyMs <= evals[i].latencyMs <= a.maxLatencyMs)
  {
    var latencies := Map(evals, LatencyOf);
    var lo, hi := MinOf(latencies), MaxOf(latencies);
    MeanBetween(latencies, lo, hi);
    var i :| 0 <= i < |latencies| && latencies[i] == lo;
    var j :| 0 <= j < |latencies| && latencies[j] == hi;
    assert evals[i].latencyMs == lo && evals[j].latencyMs == hi;
  }

  /** The mean precision of evaluations whose precisions lie in [0, 1]
      lies in [0, 1]. */
  lemma AggregatePrecision(evals: seq<QueryEvaluation>)
    requires evals != []
    requires forall i :: 0 <= i < |evals| ==> 0.0 <= evals[i].retrieval.precision <= 1.0
    ensures 0.0 <= AggregateOf(evals).value.avgPrecision <= 1.0
  {
    MeanBetween(Map(evals, PrecisionOf), 0.0, 1.0);
  }

  /** Every evaluation `evaluate_query` makes has a precision in [0, 1], so
      the aggregate precision of such evaluations does too. */
  lemma EvaluationPrecisionBounded(query: string, results: seq<Retriever.RetrievalResult>, response: string,
                                   latencyMs: real, rater: Rater, fluencyRater: Rater, loads: JsonLoads)
    ensures 0.0 <= EvaluationOf(query, results, response, latencyMs, rater, fluencyRater, loads).retrieval.precision <= 1.0
  {
    RelevanceFacts(rater, query, results);
  }

  /** One more reply adds its score unless it is empty. */
  lemma ScoresOfSnoc(texts: seq<string>, t: string)
    ensures ScoresOf(texts + [t]) == ScoresOf(texts) + (if t != "" then [ReplyScore(t)] else [])
  {
    MapFilterSnoc(texts, t, NonEmpty, ReplyScore);
  }

  /** One rated call that raises decides the result. */
  lemma RatedScoresFailed(rater: Rater, query: string, results: seq<Retriever.RetrievalResult>, i: nat)
    requires i < |results| && i < RatedResults
    requires rater(query, Passage(results[i])).None?
    ensures RatedScores(rater, query, results).None?
  {
    var replies := Replies(rater, query, results);
    SucceededFacts(replies);
    assert replies[i].None?;
  }

  /** When every rated call replies, the scores are those of the replies. */
  lemma RatedScoresOf(rater: Rater, query: string, results: seq<Retriever.RetrievalResult>, texts: seq<string>)
    requires |texts| == Min(|results|, RatedResults)
    requires forall k :: 0 <= k < |texts| ==> rater(query, Passage(results[k])) == Some(texts[k])
    ensures RatedScores(rater, query, results) == Some(ScoresOf(texts))
  {
    var replies := Replies(rater, query, results);
    SucceededFacts(replies);
    assert forall k :: 0 <= k < |replies| ==> replies[k] == Some(texts[k]);
    assert Succeeded(replies).value == texts;
  }

  class EvaluationAgent {
    const enableEval: bool
    const evalModel: string

    constructor(enableEval: bool, evalModel: string)
      ensures this.enableEval == enableEval && this.evalModel == evalModel
    {
      this.enableEval := enableEval;
      this.evalModel := evalModel;
    }

    /** `evaluate_retrieval_relevance` */
    method EvaluateRetrievalRelevance(query: string, results: seq<Retriever.RetrievalResult>, rater: Rater)
      returns (r: Relevance)
      ensures r == RelevanceOf(rater, query, results)
    {
      if results == [] {
        return Relevance(0.0, 0, 0.0, None, false);
      }
      var scores := RateResults(query, results, rater);
      if scores.None? {
        return Relevance(0.0, 0, 0.0, None, true);
      }
      r := Metrics(scores.value);
    }

    /** The `try` block of `evaluate_retrieval_relevance`: the scores list
        filled in a loop over the first 5 results; None when a call raises. */
    method RateResults(query: string, results: seq<Retriever.RetrievalResult>, rater: Rater)
      returns (r: Option<seq<real>>)
      ensures r == RatedScores(rater, query, results)
    {
      ghost var replies := Replies(rater, query, results);
      var top := PySliceTo(results, RatedResults);
      var scores: seq<real> := [];
      ghost var texts: seq<string> := [];
      for i := 0 to |top|
        invariant |texts| == i
        invariant forall k :: 0 <= k < i ==> replies[k] == Some(texts[k])
        invariant scores == ScoresOf(texts)
      {
        var reply := rater(query, Passage(top[i]));
        if reply.None? {
          RatedScoresFailed(rater, query, results, i);
          return None;
        }
        assert replies[i] == reply;
        ScoresOfSnoc(texts, reply.value);
        if reply.value != "" {
          scores := scores + [ReplyScore(reply.value)];
        }
        ghost var prev := texts;
        texts := texts + [reply.value];
        forall k | 0 <= k <= i ensures replies[k] == Some(texts[k]) {
          if k < i { assert texts[k] == prev[k]; }
        }
      }
      RatedScoresOf(rater, query, results, texts);
      r := Some(scores);
    }

    /** `evaluate_query` */
    method EvaluateQuery(query: string, results: seq<Retriever.RetrievalResult>, response: string, latencyMs: real,
                         rater: Rater, fluencyRater: Rater, loads: JsonLoads)
      returns (e: QueryEvaluation)
      ensures e == EvaluationOf(query, results, response, latencyMs, rater, fluencyRater, loads)
    {
      var retrieval := EvaluateRetrievalRelevance(query, results, rater);
      var fluency := FluencyOf(fluencyRater(response, query), loads);
      e := QueryEvaluation(query, Preview(response), |results|, retrieval, fluency, latencyMs, latencyMs / 1000.0);
    }
  }
}
