/** src/agents/metadata_filter_agent.py: reading language, page and
    document hints out of a question, and cutting them out of it before the
    search. The three regular expressions are written out as matchers. */
module MetadataFilters {
  import opened Seqs
  import opened Text
  import opened Patterns
  import Retriever

  // ---------------------------------------------------------------------
  // extract_language_filter
  // ---------------------------------------------------------------------

  const SupportedLanguages: seq<string> :=
    ["en", "zh", "hi", "bn", "ur", "english", "chinese", "hindi", "bengali", "urdu"]

  /** The codes a language filter can hold. */
  const LanguageCodes: set<string> := {"en", "zh", "hi", "bn", "ur"}

  /** `language_map.get(lang, lang)` */
  function LanguageCode(lang: string): string
  {
    if lang == "english" then "en"
    else if lang == "chinese" then "zh"
    else if lang == "hindi" then "hi"
    else if lang == "bengali" then "bn"
    else if lang == "urdu" then "ur"
    else lang
  }

  /** The code of the first entry of langs that occurs in q and maps to a
      two-letter code. */
  function FirstLanguageIn(q: string, langs: seq<string>): Option<string>
  {
    if langs == [] then None
    else if Contains(q, langs[0]) && |LanguageCode(langs[0])| == 2 then Some(LanguageCode(langs[0]))
    else FirstLanguageIn(q, langs[1..])
  }

  /** What `extract_language_filter` returns. */
  function LanguageFilter(query: string): Option<string>
  {
    FirstLanguageIn(Lower(query), SupportedLanguages)
  }

  /** When every entry maps to a two-letter code, the search finds nothing
      exactly when no entry occurs in q, and otherwise the code of the first
      entry, in list order, that occurs. */
  lemma {:induction false} FirstLanguageInFacts(q: string, langs: seq<string>)
    requires forall k :: 0 <= k < |langs| ==> |LanguageCode(langs[k])| == 2
    ensures FirstLanguageIn(q, langs).None? <==>
              forall k :: 0 <= k < |langs| ==> !IsSubstring(langs[k], q)
    ensures FirstLanguageIn(q, langs).Some? ==>
              exists k :: 0 <= k < |langs| && IsSubstring(langs[k], q)
                && FirstLanguageIn(q, langs).value == LanguageCode(langs[k])
                && forall j :: 0 <= j < k ==> !IsSubstring(langs[j], q)
  {
    if langs != [] && !Contains(q, langs[0]) {
      var rest := langs[1..];
      FirstLanguageInFacts(q, rest);
      assert forall k :: 1 <= k < |langs| ==> langs[k] == rest[k - 1];
      if FirstLanguageIn(q, rest).Some? {
        var k :| 0 <= k < |rest| && IsSubstring(rest[k], q)
                 && FirstLanguageIn(q, rest).value == LanguageCode(rest[k])
                 && forall j :: 0 <= j < k ==> !IsSubstring(rest[j], q);
        assert langs[k + 1] == rest[k];
      }
    }
  }

  /** The language filter is one of en, zh, hi, bn, ur: the code of the
      first supported name, in list order, found in the lower-cased query,
      and absent only when none is found. */
  lemma LanguageFilterFacts(query: string)
    ensures var r := LanguageFilter(query); var q := Lower(query);
      && (r.None? <==> forall k :: 0 <= k < |SupportedLanguages| ==> !IsSubstring(SupportedLanguages[k], q))
      && (r.Some? ==> r.value in LanguageCodes)
      && (r.Some? ==> exists k :: 0 <= k < |SupportedLanguages| && IsSubstring(SupportedLanguages[k], q)
                         && r.value == LanguageCode(SupportedLanguages[k])
                         && forall j :: 0 <= j < k ==> !IsSubstring(SupportedLanguages[j], q))
  {
    var langs := SupportedLanguages;
    assert forall k :: 0 <= k < |langs| ==> LanguageCode(langs[k]) in LanguageCodes;
    FirstLanguageInFacts(Lower(query), langs);
  }

  /** Matching is by substring and "en" is tried first, so a query naming
      Bengali but containing the word "documents" is filtered to English. */
  lemma BengaliQueryFiltersEnglish()
    ensures LanguageFilter("Show me documents in Bengali") == Some("en")
  {
    var q := Lower("Show me documents in Bengali");
    assert q[13..15] == "en";
    assert OccursAt(q, "en", 13);
  }

  /** `extract_language_filter`: the loop over the supported names. */
  method ExtractLanguageFilter(query: string) returns (r: Option<string>)
    ensures r == LanguageFilter(query)
  {
    var q := Lower(query);
    var langs := SupportedLanguages;
    for i := 0 to |langs|
      invariant FirstLanguageIn(q, langs[i..]) == FirstLanguageIn(q, langs)
    {
      assert langs[i..][1..] == langs[i + 1..];
      var lang := langs[i];
      if Contains(q, lang) {
        var code := LanguageCode(lang);
        if |code| == 2 {
          return Some(code);
        }
      }
    }
    return None;
  }

  // ---------------------------------------------------------------------
  // extract_page_filter: r'\bpage\s+(\d+)\b', ignoring case
  // ---------------------------------------------------------------------

  /** The page pattern at i; its group is the digits. */
  function PageMatchAt(s: string, i: nat): (r: Option<Found>)
    ensures r.Some? ==> 0 < r.value.len <= |s| - i && IsDigitString(r.value.text)
  {
    if !(Boundary(s, i) && KeywordAt(s, i, "page")) then None
    else
      var sp := RunFrom(s, i + 4, IsSpace);
      var start := i + 4 + sp;
      var d := RunFrom(s, start, IsDigit);
      if sp > 0 && d > 0 && Boundary(s, start + d) then Some(Found(4 + sp + d, s[start..start + d]))
      else None
  }

  function PageMatches(s: string): Matcher
  {
    (j: nat) => PageMatchAt(s, j)
  }

  /** What `extract_page_filter` returns: the number in the first page
      mention. */
  function PageFilter(query: string): Option<nat>
  {
    var found := SearchFrom(query, 0, PageMatches(query));
    if found.None? then None
    else
      PageFoundIsDigits(query, found);
      Some(DigitsValue(found.value.text))
  }

  lemma PageMatchesAt(s: string)
    ensures forall j: nat :: PageMatches(s)(j) == PageMatchAt(s, j)
  {
  }

  lemma PageFoundIsDigits(query: string, found: Option<Found>)
    requires found == SearchFrom(query, 0, PageMatches(query)) && found.Some?
    ensures IsDigitString(found.value.text)
  {
    SearchFromFacts(query, 0, PageMatches(query));
    var j :| 0 <= j <= |query| && PageMatches(query)(j) == found;
  }

  /** There is a page filter exactly when the page pattern matches
      somewhere, and it is the number at the first position where it does. */
  lemma PageFilterIsFirstMatch(query: string)
    ensures var r := PageFilter(query);
      && (r.None? <==> forall j :: 0 <= j <= |query| ==> PageMatchAt(query, j).None?)
      && (r.Some? ==>
            exists j :: 0 <= j <= |query| && PageMatchAt(query, j).Some?
                    && r.value == DigitsValue(PageMatchAt(query, j).value.text)
                    && forall k :: 0 <= k < j ==> PageMatchAt(query, k).None?)
  {
    var found := SearchFrom(query, 0, PageMatches(query));
    SearchFromFacts(query, 0, PageMatches(query));
    PageMatchesAt(query);
    if found.Some? {
      var j :| 0 <= j <= |query| && PageMatches(query)(j) == found
               && forall k :: 0 <= k < j ==> PageMatches(query)(k).None?;
    }
  }

  /** "page n", written with `str(n)`, is read back as n. */
  lemma PageFilterOfMention(n: nat)
    ensures PageFilter("page " + NatToString(n)) == Some(n)
  {
    var s := "page " + NatToString(n);
    var digits := NatToString(n);
    assert s[0..4] == "page";
    assert Lower(s[0..4]) == "page";
    var sp := RunFrom(s, 4, IsSpace);
    assert s[4] == ' ';
    assert s[5..] == digits;
    assert sp == 1 by {
      assert IsDigit(s[5]);
      assert !IsSpace(s[5]);
    }
    var d := RunFrom(s, 5, IsDigit);
    assert d == |digits| by {
      assert forall k :: 5 <= k < |s| ==> IsDigit(s[k]);
      RunToEnd(s, 5, IsDigit);
    }
    assert s[5..5 + d] == digits;
    assert PageMatchAt(s, 0) == Some(Found(4 + 1 + d, digits));
    DigitsValueOfNatToString(n);
  }

  /** A run that can reach the end of s does. */
  lemma {:induction false} RunToEnd(s: string, i: nat, p: char -> bool)
    requires i <= |s| && forall k :: i <= k < |s| ==> p(s[k])
    ensures RunFrom(s, i, p) == |s| - i
    decreases |s| - i
  {
    if i < |s| {
      RunToEnd(s, i + 1, p);
    }
  }

  // ---------------------------------------------------------------------
  // extract_doc_id_filter: r'\b(?:document|doc)\s+([a-zA-Z0-9_-]+)\b',
  // ignoring case
  // ---------------------------------------------------------------------

  predicate IsIdChar(c: char)
  {
    IsAlpha(c) || IsDigit(c) || c == '_' || c == '-'
  }

  /** The longest L in 1..n with `\b` at j + L, or 0: how far the greedy
      `+` gives back before the closing `\b` holds. */
  function LongestBounded(s: string, j: nat, n: nat): (l: nat)
    ensures l <= n
    ensures l > 0 ==> Boundary(s, j + l)
    ensures forall k :: j + l < k <= j + n ==> !Boundary(s, k)
  {
    if n == 0 then 0 else if Boundary(s, j + n) then n else LongestBounded(s, j, n - 1)
  }

  /** `\s+([a-zA-Z0-9_-]+)\b` at k. */
  function IdAfter(s: string, k: nat): (r: Option<Found>)
    requires k <= |s|
    ensures r.Some? ==> 0 < r.value.len <= |s| - k && r.value.text != []
    ensures r.Some? ==> forall c :: 0 <= c < |r.value.text| ==> IsIdChar(r.value.text[c])
  {
    var sp := RunFrom(s, k, IsSpace);
    var start := k + sp;
    var n := RunFrom(s, start, IsIdChar);
    var l := LongestBounded(s, start, n);
    if sp > 0 && l > 0 then Some(Found(sp + l, s[start..start + l])) else None
  }

  /** The document pattern at i: "document" is tried before "doc". */
  function DocMatchAt(s: string, i: nat): (r: Option<Found>)
    ensures r.Some? ==> 0 < r.value.len <= |s| - i && r.value.text != []
    ensures r.Some? ==> forall c :: 0 <= c < |r.value.text| ==> IsIdChar(r.value.text[c])
  {
    if !Boundary(s, i) then None
    else
      var long := if KeywordAt(s, i, "document") then IdAfter(s, i + 8) else None;
      if long.Some? then Some(Found(8 + long.value.len, long.value.text))
      else if KeywordAt(s, i, "doc") then
        var short := IdAfter(s, i + 3);
        if short.Some? then Some(Found(3 + short.value.len, short.value.text)) else None
      else None
  }

  function DocMatches(s: string): Matcher
  {
    (j: nat) => DocMatchAt(s, j)
  }

  /** What `extract_doc_id_filter` returns: the identifier of the first
      document mention. */
  function DocIdFilter(query: string): Option<string>
  {
    var found := SearchFrom(query, 0, DocMatches(query));
    if found.None? then None else Some(found.value.text)
  }

  lemma DocMatchesAt(s: string)
    ensures forall j: nat :: DocMatches(s)(j) == DocMatchAt(s, j)
  {
  }

  /** There is a document filter exactly when the document pattern matches
      somewhere, and it is the group at the first position where it does. */
  lemma DocIdFilterIsFirstMatch(query: string)
    ensures var r := DocIdFilter(query);
      && (r.None? <==> forall j :: 0 <= j <= |query| ==> DocMatchAt(query, j).None?)
      && (r.Some? ==>
            exists j :: 0 <= j <= |query| && DocMatchAt(query, j).Some?
                    && r.value == DocMatchAt(query, j).value.text
                    && forall k :: 0 <= k < j ==> DocMatchAt(query, k).None?)
  {
    var found := SearchFrom(query, 0, DocMatches(query));
    SearchFromFacts(query, 0, DocMatches(query));
    DocMatchesAt(query);
    if found.Some? {
      var j :| 0 <= j <= |query| && DocMatches(query)(j) == found
               && forall k :: 0 <= k < j ==> DocMatches(query)(k).None?;
    }
  }

  /** The identifier is non-empty and made of letters, digits, '_' and '-'. */
  lemma DocIdFilterShape(query: string)
    ensures var r := DocIdFilter(query);
      r.Some? ==> r.value != [] && forall c :: 0 <= c < |r.value| ==> IsIdChar(r.value[c])
  {
    var r := DocIdFilter(query);
    DocIdFilterIsFirstMatch(query);
    if r.Some? {
      var j :| 0 <= j <= |query| && DocMatchAt(query, j).Some? && r.value == DocMatchAt(query, j).value.text;
    }
  }

  /** "doc x" gives back x for an identifier ending in a word character. */
  lemma DocIdFilterOfMention(id: string)
    requires id != [] && forall c :: 0 <= c < |id| ==> IsIdChar(id[c])
    requires IsWordChar(id[|id| - 1])
    ensures DocIdFilter("doc " + id) == Some(id)
  {
    var s := "doc " + id;
    assert s[0..3] == "doc" && Lower(s[0..3]) == "doc";
    assert !KeywordAt(s, 0, "document") by {
      if |s| >= 8 { assert s[3] == ' '; assert Lower(s[0..8])[3] == ' '; }
    }
    IdAfterMention(s, id);
    assert DocMatchAt(s, 0) == Some(Found(3 + 1 + |id|, id));
  }

  /** After "doc", one space and then the whole identifier. */
  lemma IdAfterMention(s: string, id: string)
    requires s == "doc " + id
    requires id != [] && forall c :: 0 <= c < |id| ==> IsIdChar(id[c])
    requires IsWordChar(id[|id| - 1])
    ensures IdAfter(s, 3) == Some(Found(1 + |id|, id))
  {
    assert s[4..] == id;
    assert RunFrom(s, 3, IsSpace) == 1 by {
      assert s[3] == ' ';
      assert !IsSpace(s[4]) by { assert s[4] == id[0]; }
    }
    var n := RunFrom(s, 4, IsIdChar);
    assert n == |id| by {
      forall k | 4 <= k < |s| ensures IsIdChar(s[k]) { assert s[k] == id[k - 4]; }
      RunToEnd(s, 4, IsIdChar);
    }
    assert Boundary(s, 4 + n) by { assert s[|s| - 1] == id[|id| - 1]; }
    assert s[4..4 + n] == id;
  }

  // ---------------------------------------------------------------------
  // extract_filters
  // ---------------------------------------------------------------------

  /** The steps of `extract_filters`: a key per detector that fired. */
  function WithLanguage(f: Retriever.MetadataFilter, language: Option<string>): Retriever.MetadataFilter
  {
    if language.Some? && language.value != "" then f["language" := Retriever.VStr(language.value)] else f
  }

  function WithPage(f: Retriever.MetadataFilter, page: Option<nat>): Retriever.MetadataFilter
  {
    if page.Some? then f["page_num" := Retriever.VInt(page.value)] else f
  }

  function WithDocId(f: Retriever.MetadataFilter, docId: Option<string>): Retriever.MetadataFilter
  {
    if docId.Some? && docId.value != "" then f["doc_id" := Retriever.VStr(docId.value)] else f
  }

  /** What `extract_filters` returns. */
  function Filters(query: string): Retriever.MetadataFilter
  {
    WithDocId(WithPage(WithLanguage(map[], LanguageFilter(query)), PageFilter(query)), DocIdFilter(query))
  }

  /** Each key is present exactly when its detector found something, and
      holds what it found; there are no other keys, so a question without
      hints gives no filter at all. */
  lemma FiltersFacts(query: string)
    ensures var f := Filters(query);
      && f.Keys <= {"language", "page_num", "doc_id"}
      && ("language" in f <==> LanguageFilter(query).Some?)
      && ("language" in f ==> f["language"] == Retriever.VStr(LanguageFilter(query).value))
      && ("page_num" in f <==> PageFilter(query).Some?)
      && ("page_num" in f ==> f["page_num"] == Retriever.VInt(PageFilter(query).value))
      && ("doc_id" in f <==> DocIdFilter(query).Some?)
      && ("doc_id" in f ==> f["doc_id"] == Retriever.VStr(DocIdFilter(query).value))
      && (LanguageFilter(query).None? && PageFilter(query).None? && DocIdFilter(query).None? ==> f == map[])
  {
    LanguageFilterFacts(query);
    DocIdFilterShape(query);
  }

  /** `extract_filters`: the dict filled key by key. */
  method ExtractFilters(query: string) returns (filters: Retriever.MetadataFilter)
    ensures filters == Filters(query)
  {
    filters := map[];
    var language := ExtractLanguageFilter(query);
    if language.Some? && language.value != "" {
      filters := filters["language" := Retriever.VStr(language.value)];
    }
    ghost var afterLanguage := filters;
    var page := PageFilter(query);
    if page.Some? {
      filters := filters["page_num" := Retriever.VInt(page.value)];
    }
    ghost var afterPage := filters;
    var docId := DocIdFilter(query);
    if docId.Some? && docId.value != "" {
      filters := filters["doc_id" := Retriever.VStr(docId.value)];
    }
    assert afterLanguage == WithLanguage(map[], language);
    assert afterPage == WithPage(afterLanguage, page);
    assert filters == WithDocId(afterPage, docId);
  }

  // ---------------------------------------------------------------------
  // clean_query
  // ---------------------------------------------------------------------

  /** r'\b' + w + r'\b' at i, ignoring case. */
  function WordMatchAt(s: string, w: string, i: nat): (r: Option<Found>)
    ensures r.Some? ==> r.value.len == |w| <= |s| - i
  {
    if Boundary(s, i) && KeywordAt(s, i, w) && Boundary(s, i + |w|)
    then Some(Found(|w|, s[i..i + |w|]))
    else None
  }

  function WordMatches(s: string, w: string): Matcher
  {
    (j: nat) => WordMatchAt(s, w, j)
  }

  /** One `re.sub` per word, in list order. */
  function RemoveWords(s: string, words: seq<string>): (r: string)
    ensures |r| <= |s|
  {
    if words == [] then s
    else
      var t := RemoveWords(s, words[..|words| - 1]);
      RemoveMatches(t, 0, WordMatches(t, words[|words| - 1]))
  }

  /** The removal steps of `clean_query`, before the whitespace clean-up. */
  function RemoveMentions(query: string, filters: Retriever.MetadataFilter): (r: string)
    ensures |r| <= |query|
  {
    var a := if "language" in filters then RemoveWords(query, SupportedLanguages) else query;
    var b := if "page_num" in filters then RemoveMatches(a, 0, PageMatches(a)) else a;
    if "doc_id" in filters then RemoveMatches(b, 0, DocMatches(b)) else b
  }

  /** What `clean_query` returns. */
  function CleanedQuery(query: string, filters: Retriever.MetadataFilter): string
  {
    Strip(CollapseRuns(RemoveMentions(query, filters), IsSpace, ' '))
  }

  /** Single-spaced: stripped, every whitespace character a plain space,
      never two in a row. */
  ghost predicate IsSingleSpaced(s: string)
  {
    && IsStripped(s)
    && NoAdjacent(s, IsSpace)
    && forall i :: 0 <= i < |s| && IsSpace(s[i]) ==> s[i] == ' '
  }

  /** The cleaned query is never longer than the query, has no whitespace
      at its ends and never two whitespace characters in a row. */
  lemma CleanedQueryIsSingleSpaced(query: string, filters: Retriever.MetadataFilter)
    ensures |CleanedQuery(query, filters)| <= |query|
    ensures IsSingleSpaced(CleanedQuery(query, filters))
  {
    var b := RemoveMentions(query, filters);
    CollapseThenStrip(b, IsSpace, ' ');
  }

  /** Collapsing runs and then stripping the same class leaves a string
      that starts and ends outside the class, with no two class members in
      a row, each of them c. */
  lemma CollapseThenStrip(s: string, p: char -> bool, c: char)
    requires p(c)
    ensures var r := StripBy(CollapseRuns(s, p, c), p);
      && |r| <= |s|
      && NoAdjacent(r, p)
      && forall i :: 0 <= i < |r| && p(r[i]) ==> r[i] == c
  {
    CollapseRunsFacts(s, p, c);
    StripKeepsClass(CollapseRuns(s, p, c), p, c);
  }

  /** Stripping keeps both facts about the class. */
  lemma StripKeepsClass(t: string, p: char -> bool, c: char)
    requires NoAdjacent(t, p)
    requires forall i :: 0 <= i < |t| && p(t[i]) ==> t[i] == c
    ensures var r := StripBy(t, p);
      && |r| <= |t|
      && NoAdjacent(r, p)
      && forall i :: 0 <= i < |r| && p(r[i]) ==> r[i] == c
  {
    StripBySlice(t, p);
    var a := |t| - |LStripBy(t, p)|;
    var r := StripBy(t, p);
    NoAdjacentSlice(t, p, a, a + |r|);
    forall i | 0 <= i < |r| && p(r[i]) ensures r[i] == c {
      assert r[i] == t[a + i];
    }
  }

  /** Without any filter key only the whitespace is normalised, so an
      already single-spaced question comes back unchanged. */
  lemma CleanedQueryWithoutFilters(query: string, filters: Retriever.MetadataFilter)
    requires "language" !in filters && "page_num" !in filters && "doc_id" !in filters
    requires IsSingleSpaced(query)
    ensures CleanedQuery(query, filters) == query
  {
    CollapseRunsOfCollapsed(query, IsSpace, ' ');
    StripOfStripped(query);
  }

  /** A language name that occurs only inside longer words is not removed:
      removal is by whole word. */
  lemma RemoveWordOnlyWhole(s: string, w: string)
    requires forall j :: 0 <= j < |s| ==> !(Boundary(s, j) && KeywordAt(s, j, w) && Boundary(s, j + |w|))
    ensures RemoveMatches(s, 0, WordMatches(s, w)) == s
  {
    RemoveNoMatches(s, 0, WordMatches(s, w));
  }

  /** `clean_query`: the language names are removed one after the other,
      then page and document mentions, then the whitespace. */
  method CleanQuery(query: string, filters: Retriever.MetadataFilter) returns (cleaned: string)
    ensures cleaned == CleanedQuery(query, filters)
  {
    cleaned := query;
    if "language" in filters {
      var langs := SupportedLanguages;
      for i := 0 to |langs|
        invariant cleaned == RemoveWords(query, langs[..i])
      {
        assert langs[..i + 1][..i] == langs[..i];
        cleaned := RemoveMatches(cleaned, 0, WordMatches(cleaned, langs[i]));
      }
      assert langs[..|langs|] == langs;
    }
    if "page_num" in filters {
      cleaned := RemoveMatches(cleaned, 0, PageMatches(cleaned));
    }
    if "doc_id" in filters {
      cleaned := RemoveMatches(cleaned, 0, DocMatches(cleaned));
    }
    cleaned := Strip(CollapseRuns(cleaned, IsSpace, ' '));
  }
}
