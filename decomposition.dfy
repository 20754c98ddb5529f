/** src/agents/decomposition_agent.py: splitting a long question into
    sub-queries with a language model, and the guards around it. The two
    model replies are parameters: `None` when the call raises or answers
    with a non-200 status. */
module Decomposition {
  import opened Seqs
  import opened Text

  // ---------------------------------------------------------------------
  // `_parse_model_name`
  // ---------------------------------------------------------------------

  /** "provider:model" -> "model": everything after the first ':'. */
  function ParseModelName(modelStr: string): (r: string)
    ensures ':' !in modelStr ==> r == modelStr
    ensures ':' in modelStr ==>
              var i := Find(modelStr, ':');
              0 <= i && ':' !in modelStr[..i] && r == modelStr[i + 1..]
  {
    var i := Find(modelStr, ':');
    if i == -1 then modelStr else modelStr[i + 1..]
  }

  /** A provider prefix without ':' is dropped, and nothing after it. */
  lemma ParseModelNameOfPrefixed(provider: string, model: string)
    requires ':' !in provider
    ensures ParseModelName(provider + ":" + model) == model
  {
    var s := provider + ":" + model;
    assert s[|provider|] == ':';
    assert ':' in s;
    var i := Find(s, ':');
    assert forall k :: 0 <= k < |provider| ==> s[k] == provider[k];
    assert s[|provider| + 1..] == model;
  }

  /** The example the source documents for it. */
  lemma ParseModelNameExample()
    ensures ParseModelName("ollama:deepseek-r1:1.5b") == "deepseek-r1:1.5b"
  {
    assert "ollama:deepseek-r1:1.5b" == "ollama" + ":" + "deepseek-r1:1.5b";
    ParseModelNameOfPrefixed("ollama", "deepseek-r1:1.5b");
  }

  // ---------------------------------------------------------------------
  // `_parse_sub_queries`
  // ---------------------------------------------------------------------

  /** Length of the leading run of ASCII digits. */
  function DigitRun(s: string): (n: nat)
    ensures n <= |s|
    ensures forall i :: 0 <= i < n ==> IsDigit(s[i])
    ensures n == |s| || !IsDigit(s[n])
  {
    if s == [] || !IsDigit(s[0]) then 0 else 1 + DigitRun(s[1..])
  }

  /** `re.sub(r'^\d+[\.\)]\s*', '', line)` */
  function StripNumbering(line: string): (r: string)
    ensures |r| <= |line|
  {
    var d := DigitRun(line);
    if 0 < d < |line| && (line[d] == '.' || line[d] == ')') then
      LStripBy(line[d + 1..], IsSpace)
    else line
  }

  predicate IsBullet(c: char)
  {
    c == '-' || c == '*' || c == '•'
  }

  /** `re.sub(r'^[-\*•]\s*', '', line)` */
  function StripBullet(line: string): (r: string)
    ensures |r| <= |line|
  {
    if line != [] && IsBullet(line[0]) then
      LStripBy(line[1..], IsSpace)
    else line
  }

  predicate IsQuote(c: char)
  {
    c == '"' || c == '\''
  }

  /** The clean-up applied to each reply line: strip, drop one number
      prefix, then one bullet, then surrounding quotes. */
  function CleanLine(line: string): string
  {
    StripBy(StripBullet(StripNumbering(Strip(line))), IsQuote)
  }

  /** Cleaning never lengthens a line, and leaves no quote at either end. */
  lemma CleanLineEnds(line: string)
    ensures |CleanLine(line)| <= |line|
    ensures var r := CleanLine(line); r == [] || (!IsQuote(r[0]) && !IsQuote(r[|r| - 1]))
  {
    var c := StripBullet(StripNumbering(Strip(line)));
    assert |c| <= |line|;
    StripBySlice(c, IsQuote);
  }

  /** The cleaned lines longer than ten characters, in line order. */
  function KeptLines(lines: seq<string>, clean: string -> string): (r: seq<string>)
    ensures |r| <= |lines|
    ensures forall i :: 0 <= i < |r| ==> |r[i]| > 10
  {
    if lines == [] then []
    else
      var line := clean(lines[|lines| - 1]);
      KeptLines(lines[..|lines| - 1], clean) + (if |line| > 10 then [line] else [])
  }

  /** Every kept line is the cleaned form of one of the lines. */
  lemma {:induction false} KeptLinesFromLines(lines: seq<string>, clean: string -> string)
    ensures forall q :: q in KeptLines(lines, clean) ==>
              exists k :: 0 <= k < |lines| && q == clean(lines[k])
  {
    if lines != [] {
      var init := lines[..|lines| - 1];
      KeptLinesFromLines(init, clean);
      forall q | q in KeptLines(lines, clean)
        ensures exists k :: 0 <= k < |lines| && q == clean(lines[k])
      {
        if q in KeptLines(init, clean) {
          var k :| 0 <= k < |init| && q == clean(init[k]);
          assert lines[k] == init[k];
        } else {
          assert q == clean(lines[|lines| - 1]);
        }
      }
    }
  }

  /** What `_parse_sub_queries` returns: the kept lines of the stripped
      reply, at most four of them. */
  function SubQueries(responseText: string): (r: seq<string>)
    ensures |r| <= 4
    ensures forall i :: 0 <= i < |r| ==> |r[i]| > 10
  {
    FirstKeptLines(SplitOn(Strip(responseText), '\n'))
  }

  /** The first four cleaned lines that are long enough. */
  function FirstKeptLines(lines: seq<string>): (r: seq<string>)
    ensures |r| <= 4
    ensures forall i :: 0 <= i < |r| ==> |r[i]| > 10
  {
    PySliceTo(KeptLines(lines, CleanLine), 4)
  }

  /** Every sub-query is the cleaned form of one of the reply's lines, and
      the sub-queries are the first kept lines in line order. */
  lemma SubQueriesFromLines(responseText: string)
    ensures var lines := SplitOn(Strip(responseText), '\n');
      && SubQueries(responseText) == KeptLines(lines, CleanLine)[..|SubQueries(responseText)|]
      && forall q :: q in SubQueries(responseText) ==>
           exists k :: 0 <= k < |lines| && q == CleanLine(lines[k])
  {
    var lines := SplitOn(Strip(responseText), '\n');
    KeptLinesFromLines(lines, CleanLine);
  }

  /** The loop of `_parse_sub_queries`, then the cut to four. */
  method ParseSubQueries(responseText: string) returns (subQueries: seq<string>)
    ensures subQueries == SubQueries(responseText)
  {
    var lines := SplitOn(Strip(responseText), '\n');
    var kept := KeepLines(lines, CleanLine);
    subQueries := PySliceTo(kept, 4);
  }

  /** Cleans each line and keeps those longer than ten characters. */
  method KeepLines(lines: seq<string>, clean: string -> string) returns (kept: seq<string>)
    ensures kept == KeptLines(lines, clean)
  {
    kept := [];
    for i := 0 to |lines|
      invariant kept == KeptLines(lines[..i], clean)
    {
      var line := clean(lines[i]);
      assert lines[..i + 1][..i] == lines[..i];
      if |line| > 10 {
        kept := kept + [line];
      }
    }
    assert lines[..|lines|] == lines;
  }

  // ---------------------------------------------------------------------
  // `decompose_query`
  // ---------------------------------------------------------------------

  /** Python's truthiness of the list a decomposer returns. */
  predicate NonEmpty(subs: Option<seq<string>>)
  {
    subs.Some? && subs.value != []
  }

  /** `[query] + sub_queries`, keeping the first of each lower-case form. */
  function WithOriginal(query: string, subs: seq<string>): seq<string>
  {
    DedupByKey([query] + subs, Lower)
  }

  /** The original query comes first, then the sub-queries in order; the
      result has one to five entries, pairwise distinct ignoring case, and
      every sub-query whose lower-case form was not already present is kept. */
  lemma WithOriginalFacts(query: string, subs: seq<string>)
    requires |subs| <= 4
    ensures var r := WithOriginal(query, subs);
      && 1 <= |r| <= 5
      && r[0] == query
      && DistinctKeys(r, Lower)
      && (forall i :: 0 <= i < |r| ==> r[i] == query || r[i] in subs)
      && KeySet(r, Lower) == KeySet([query] + subs, Lower)
  {
    var all := [query] + subs;
    var r := WithOriginal(query, subs);
    DedupFromFacts(all, Lower, {});
    assert all[1..] == subs;
    var none: set<string> := {};
    assert all[0] == query && Lower(query) !in none;
    assert r == [query] + DedupFrom(subs, Lower, none + {Lower(query)});
    forall i | 0 <= i < |r| ensures r[i] == query || r[i] in subs {
      assert r[i] in all;
    }
  }

  class DecompositionAgent {
    const enableDecomposition: bool
    const primaryModel: string
    const fallbackModel: string

    constructor(enableDecomposition: bool, llmPrimary: string, llmFallback: string)
      ensures this.enableDecomposition == enableDecomposition
      ensures primaryModel == ParseModelName(llmPrimary) && fallbackModel == llmFallback
    {
      this.enableDecomposition := enableDecomposition;
      primaryModel := ParseModelName(llmPrimary);
      fallbackModel := llmFallback;
    }

    /** `decompose_with_ollama`: the reply's "response" text, stripped and
        parsed; `None` when the request failed. */
    method DecomposeWithOllama(reply: Option<string>) returns (subs: Option<seq<string>>)
      ensures reply.None? ==> subs.None?
      ensures reply.Some? ==> subs == Some(SubQueries(Strip(reply.value)))
    {
      if reply.None? {
        return None;
      }
      var parsed := ParseSubQueries(Strip(reply.value));
      subs := Some(parsed);
    }

    /** `decompose_with_gemini`: an empty reply text counts as a failure. */
    method DecomposeWithGemini(reply: Option<string>) returns (subs: Option<seq<string>>)
      ensures reply.None? || reply.value == "" ==> subs.None?
      ensures reply.Some? && reply.value != "" ==> subs == Some(SubQueries(reply.value))
    {
      if reply.None? || reply.value == "" {
        return None;
      }
      var parsed := ParseSubQueries(reply.value);
      subs := Some(parsed);
    }

    /** `decompose_query`. Short queries and a disabled agent skip both
        models; Gemini is asked only when Ollama gave nothing usable. */
    method DecomposeQuery(query: string, ollamaReply: Option<string>, geminiReply: Option<string>)
      returns (queries: seq<string>)
      ensures !enableDecomposition ==> queries == [query]
      ensures |Words(query)| < 8 ==> queries == [query]
      ensures enableDecomposition && |Words(query)| >= 8 ==>
                var fromOllama := if ollamaReply.Some? then SubQueries(Strip(ollamaReply.value)) else [];
                var fromGemini := if geminiReply.Some? && geminiReply.value != ""
                                  then SubQueries(geminiReply.value) else [];
                var subs := if fromOllama != [] then fromOllama else fromGemini;
                queries == (if subs == [] then [query] else WithOriginal(query, subs))
      ensures 1 <= |queries| <= 5 && queries[0] == query && DistinctKeys(queries, Lower)
    {
      if !enableDecomposition {
        return [query];
      }
      if |Words(query)| < 8 {
        return [query];
      }
      var subs := DecomposeWithOllama(ollamaReply);
      if !NonEmpty(subs) {
        subs := DecomposeWithGemini(geminiReply);
      }
      if !NonEmpty(subs) {
        return [query];
      }
      queries := DedupFirst([query] + subs.value, Lower);
      WithOriginalFacts(query, subs.value);
    }
  }
}
