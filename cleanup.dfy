/** src/agents/cleanup_agent.py: cleaning OCR text. A text of at most 3000
    characters goes to the primary model (Ollama), then to the fallback
    model (Gemini), and failing both to a fixed chain of regular-expression
    substitutions; a longer text is cut at its "[PAGE n]" markers and each
    page is cleaned alone. The two models are parameters: each one's raw
    reply to a text and a language, `None` when the call fails. */
module Cleanup {
  import opened Seqs
  import opened Text
  import opened Patterns
  import Utils
  import Decomposition

  /** A model's raw reply to (text, language); `None` for a failed call. */
  type Model = (string, string) -> Option<string>

  /** Texts longer than this are cleaned page by page. */
  const LargeTextLength: nat := 3000

  // ---------------------------------------------------------------------
  // _basic_cleanup
  // ---------------------------------------------------------------------

  /** s has an ASCII lower-case letter right before an upper-case one at i. */
  predicate CamelAt(s: string, i: nat)
  {
    i + 1 < |s| && IsLower(s[i]) && IsUpper(s[i + 1])
  }

  /** `re.sub(r'([a-z])([A-Z])', r'\1 \2', s)`: a space between every
      lower-case letter and the upper-case letter after it. A match never
      starts at an upper-case letter, so matches never compete. */
  function SplitCamel(s: string): (r: string)
    ensures s != [] ==> r != [] && r[0] == s[0]
    ensures s == [] ==> r == []
  {
    if |s| < 2 then s
    else if CamelAt(s, 0) then [s[0], ' '] + SplitCamel(s[1..])
    else [s[0]] + SplitCamel(s[1..])
  }

  /** `_basic_cleanup`: runs of spaces become one space, runs of two or
      more newlines become exactly two, '|' becomes 'I', lower-upper
      letter pairs are split by a space, and the ends are stripped. */
  function BasicCleanup(text: string): string
  {
    Strip(SplitCamel(Utils.ReplaceChar(Utils.CapRuns(Utils.CapRuns(text, ' ', 1, 0), '\n', 2, 0), '|', 'I')))
  }

  /** The characters of the split are those of s and the inserted spaces. */
  lemma {:induction false} SplitCamelChars(s: string, ch: char)
    requires ch != ' ' && ch !in s
    ensures ch !in SplitCamel(s)
    decreases |s|
  {
    if |s| >= 2 {
      assert s[1..] == s[1..];
      assert ch !in s[1..];
      SplitCamelChars(s[1..], ch);
    }
  }

  /** After the split no lower-case letter is followed by an upper-case one. */
  lemma {:induction false} SplitCamelNoCamel(s: string)
    ensures forall i :: 0 <= i < |SplitCamel(s)| ==> !CamelAt(SplitCamel(s), i)
    decreases |s|
  {
    if |s| >= 2 {
      var t := SplitCamel(s[1..]);
      SplitCamelNoCamel(s[1..]);
      var r := SplitCamel(s);
      forall i | 0 <= i < |r| ensures !CamelAt(r, i) {
        if CamelAt(s, 0) {
          assert r == [s[0], ' '] + t;
          if i == 0 {
            assert r[1] == ' ';
          } else if i == 1 {
            assert r[1] == ' ';
          } else {
            assert !CamelAt(t, i - 2);
            assert r[i] == t[i - 2];
            if i + 1 < |r| { assert r[i + 1] == t[i - 1]; }
          }
        } else {
          assert r == [s[0]] + t;
          if i >= 1 {
            assert !CamelAt(t, i - 1);
            assert r[i] == t[i - 1];
            if i + 1 < |r| { assert r[i + 1] == t[i]; }
          } else {
            assert r[1] == t[0] == s[1];
          }
        }
      }
    }
  }

  /** Splitting does not lengthen a run of a character that is not a
      letter; the spaces it inserts stand alone between two letters. */
  lemma {:induction false} SplitCamelKeepsRuns(s: string, c: char, k: nat, run: nat)
    requires k >= 1 && !IsLower(c) && !IsUpper(c)
    requires Utils.RunsAtMost(s, c, k, run)
    ensures Utils.RunsAtMost(SplitCamel(s), c, k, run)
    decreases |s|
  {
    if |s| >= 2 {
      var t := SplitCamel(s[1..]);
      if s[0] == c {
        SplitCamelKeepsRuns(s[1..], c, k, run + 1);
        assert SplitCamel(s) == [s[0]] + t && ([s[0]] + t)[1..] == t;
      } else {
        SplitCamelKeepsRuns(s[1..], c, k, 0);
        if CamelAt(s, 0) {
          var r := [s[0], ' '] + t;
          assert r[1..] == [' '] + t && ([' '] + t)[1..] == t;
          assert t[0] == s[1] != c;
          RunsAtMostFirstOther(t, c, k, 1);
          assert Utils.RunsAtMost([' '] + t, c, k, 0);
        } else {
          assert SplitCamel(s) == [s[0]] + t && ([s[0]] + t)[1..] == t;
        }
      }
    }
  }

  /** A string that does not start with c may follow any run of c. */
  lemma RunsAtMostFirstOther(t: string, c: char, k: nat, run: nat)
    requires t != [] && t[0] != c
    requires Utils.RunsAtMost(t, c, k, 0)
    ensures Utils.RunsAtMost(t, c, k, run)
  {
  }

  /** Replacing one character by another leaves runs of a third alone. */
  lemma {:induction false} ReplaceKeepsRuns(s: string, a: char, b: char, c: char, k: nat, run: nat)
    requires a != c && b != c
    requires Utils.RunsAtMost(s, c, k, run)
    ensures Utils.RunsAtMost(Utils.ReplaceChar(s, a, b), c, k, run)
    decreases |s|
  {
    if s != [] {
      assert Utils.ReplaceChar(s, a, b)[1..] == Utils.ReplaceChar(s[1..], a, b);
      if s[0] == c {
        ReplaceKeepsRuns(s[1..], a, b, c, k, run + 1);
      } else {
        ReplaceKeepsRuns(s[1..], a, b, c, k, 0);
      }
    }
  }

  /** What `_basic_cleanup` leaves behind: no two spaces in a row, no three
      newlines in a row, no '|', no lower-case letter right before an
      upper-case one, and no whitespace at either end. */
  predicate IsBasicClean(s: string)
  {
    && Utils.RunsAtMost(s, ' ', 1, 0)
    && Utils.RunsAtMost(s, '\n', 2, 0)
    && '|' !in s
    && (forall i :: 0 <= i < |s| ==> !CamelAt(s, i))
    && IsStripped(s)
  }

  lemma {:induction false} NoCamelSlice(s: string, a: nat, b: nat)
    requires a <= b <= |s|
    requires forall i :: 0 <= i < |s| ==> !CamelAt(s, i)
    ensures forall i :: 0 <= i < b - a ==> !CamelAt(s[a..b], i)
  {
    forall i | 0 <= i < b - a ensures !CamelAt(s[a..b], i) {
      assert !CamelAt(s, a + i);
      assert s[a..b][i] == s[a + i] && (i + 1 < b - a ==> s[a..b][i + 1] == s[a + i + 1]);
    }
  }

  lemma StripKeepsNoCamel(s: string)
    requires forall i :: 0 <= i < |s| ==> !CamelAt(s, i)
    ensures forall i :: 0 <= i < |Strip(s)| ==> !CamelAt(Strip(s), i)
    ensures forall ch :: ch in Strip(s) ==> ch in s
  {
    var a := |s| - |LStripBy(s, IsSpace)|;
    StripBySlice(s, IsSpace);
    NoCamelSlice(s, a, a + |Strip(s)|);
  }

  lemma {:induction false} BasicCleanupIsClean(text: string)
    ensures IsBasicClean(BasicCleanup(text))
  {
    var a := Utils.CapRuns(text, ' ', 1, 0);
    var b := Utils.CapRuns(a, '\n', 2, 0);
    Utils.CapRunsBounded(text, ' ', 1, 0);
    Utils.CapRunsKeepsOther(a, '\n', 2, 0, ' ', 1, 0);
    Utils.CapRunsBounded(a, '\n', 2, 0);
    var c := Utils.ReplaceChar(b, '|', 'I');
    ReplaceKeepsRuns(b, '|', 'I', ' ', 1, 0);
    ReplaceKeepsRuns(b, '|', 'I', '\n', 2, 0);
    var d := SplitCamel(c);
    SplitCamelKeepsRuns(c, ' ', 1, 0);
    SplitCamelKeepsRuns(c, '\n', 2, 0);
    SplitCamelChars(c, '|');
    SplitCamelNoCamel(c);
    Utils.RunsAtMostStrip(d, ' ', 1);
    Utils.RunsAtMostStrip(d, '\n', 2);
    StripKeepsNoCamel(d);
  }

  /** `_basic_cleanup` collapses space runs, caps newline runs at two,
      leaves no '|' and no lower-upper pair, and strips the ends. */
  lemma BasicCleanupFacts(text: string)
    ensures var r := BasicCleanup(text);
      && Utils.NoDoubleChar(r, ' ')
      && Utils.NoTripleChar(r, '\n')
      && '|' !in r
      && (forall i :: 0 <= i && i + 1 < |r| ==> !(IsLower(r[i]) && IsUpper(r[i + 1])))
      && IsStripped(r)
  {
    var r := BasicCleanup(text);
    BasicCleanupIsClean(text);
    Utils.RunsAtMostOneMeansNoDouble(r, ' ', 0);
    Utils.RunsAtMostTwoMeansNoTriple(r, '\n', 0);
    forall i | 0 <= i && i + 1 < |r| ensures !(IsLower(r[i]) && IsUpper(r[i + 1])) {
      assert !CamelAt(r, i);
    }
  }

  lemma {:induction false} SplitCamelOfClean(s: string)
    requires forall i :: 0 <= i < |s| ==> !CamelAt(s, i)
    ensures SplitCamel(s) == s
    decreases |s|
  {
    if |s| >= 2 {
      assert !CamelAt(s, 0);
      forall i | 0 <= i < |s[1..]| ensures !CamelAt(s[1..], i) {
        assert !CamelAt(s, i + 1);
        assert s[1..][i] == s[i + 1] && (i + 1 < |s[1..]| ==> s[1..][i + 1] == s[i + 2]);
      }
      SplitCamelOfClean(s[1..]);
    }
  }

  /** Cleaning a cleaned text changes nothing. */
  lemma BasicCleanupIdempotent(text: string)
    ensures BasicCleanup(BasicCleanup(text)) == BasicCleanup(text)
  {
    var s := BasicCleanup(text);
    BasicCleanupIsClean(text);
    Utils.CapRunsOfBounded(s, ' ', 1, 0);
    Utils.CapRunsOfBounded(s, '\n', 2, 0);
    assert Utils.ReplaceChar(s, '|', 'I') == s;
    SplitCamelOfClean(s);
    StripOfStripped(s);
  }

  // ---------------------------------------------------------------------
  // cleanup_text for a text of at most 3000 characters
  // ---------------------------------------------------------------------

  /** `cleanup_with_ollama`: the stripped reply (empty when the reply has
      no text), or None when the call fails. */
  function OllamaCleaned(ollama: Model, text: string, language: string): Option<string>
  {
    if ollama(text, language).Some? then Some(Strip(ollama(text, language).value)) else None
  }

  /** `cleanup_with_gemini`: the stripped reply, or None for a failed call
      or an empty reply. */
  function GeminiCleaned(gemini: Model, text: string, language: string): Option<string>
  {
    if gemini(text, language).Some? && gemini(text, language).value != "" then Some(Strip(gemini(text, language).value))
    else None
  }

  /** `if cleaned:` */
  predicate Truthy(r: Option<string>)
  {
    r.Some? && r.value != ""
  }

  /** The fallback chain: the first non-empty of the two models' results,
      else the basic cleanup. */
  function CleanupSmall(text: string, language: string, ollama: Model, gemini: Model): (r: string)
    ensures IsStripped(r)
  {
    var first := OllamaCleaned(ollama, text, language);
    if Truthy(first) then first.value
    else
      var second := GeminiCleaned(gemini, text, language);
      if Truthy(second) then second.value
      else BasicCleanup(text)
  }

  /** The primary model's non-blank reply wins; the fallback model's
      non-blank reply is used only when the primary gave none; the basic
      cleanup only when neither did. The result is empty only when the
      basic cleanup of the text is. */
  lemma CleanupSmallFallbacks(text: string, language: string, ollama: Model, gemini: Model)
    ensures var r := CleanupSmall(text, language, ollama, gemini);
      var o := ollama(text, language);
      var g := gemini(text, language);
      && (o.Some? && Strip(o.value) != "" ==> r == Strip(o.value))
      && (!(o.Some? && Strip(o.value) != "") && g.Some? && Strip(g.value) != "" ==> r == Strip(g.value))
      && (!(o.Some? && Strip(o.value) != "") && !(g.Some? && Strip(g.value) != "") ==> r == BasicCleanup(text))
      && (r == "" ==> BasicCleanup(text) == "")
  {
    var g := gemini(text, language);
    if g.Some? && Strip(g.value) != "" {
      assert g.value != "";
    }
  }

  // ---------------------------------------------------------------------
  // _cleanup_large_text
  // ---------------------------------------------------------------------

  /** Length of the "[PAGE n]" marker at j, given one is there. */
  function MarkerLength(s: string, j: nat): nat
    requires j <= |s|
  {
    if j + 6 <= |s| then 6 + Utils.DigitRun(s, j + 6) + 1 else 0
  }

  /** The pattern `\[PAGE \d+\]` at each position of s. */
  function PageMarkers(s: string): Matcher
  {
    (j: nat) => if j <= |s| && Utils.MarkerAt(s, j).Some? then Some(Found(MarkerLength(s, j), "")) else None
  }

  lemma MarkerHit(s: string, j: nat)
    ensures Hit(s, j, PageMarkers(s)) <==> j < |s| && Utils.MarkerAt(s, j).Some?
  {
  }

  /** The split with the markers kept: `re.split` and `re.findall` on the
      marker pattern scan alike, so the pages are its even parts and the
      markers its odd parts. */
  function Parts(text: string): (parts: seq<string>)
    ensures |parts| % 2 == 1
  {
    SplitWithDelims(text, 0, 0, PageMarkers(text))
  }

  /** The even parts (pages) and the odd parts (markers) of a split. */
  function Unzip(parts: seq<string>): (r: (seq<string>, seq<string>))
    requires |parts| % 2 == 1
    ensures |r.0| == |r.1| + 1
    decreases |parts|
  {
    if |parts| < 3 then ([parts[0]], [])
    else
      var rest := Unzip(parts[2..]);
      ([parts[0]] + rest.0, [parts[1]] + rest.1)
  }

  /** `re.split(page_pattern, text)` */
  function Pages(text: string): seq<string>
  {
    Unzip(Parts(text)).0
  }

  /** `re.findall(page_pattern, text)` */
  function Markers(text: string): seq<string>
  {
    Unzip(Parts(text)).1
  }

  predicate IsBlank(s: string)
  {
    Strip(s) == ""
  }

  /** What the loop does with one page: a blank page is skipped; a page
      whose stripped text is over 3000 characters sends `cleanup_text`
      back into `_cleanup_large_text` (LongPageRecursesOnItself); any
      other page is cleaned by the fallback chain. */
  datatype PageResult = Skipped | Kept(text: string) | Loops

  function PageOutcome(page: string, language: string, ollama: Model, gemini: Model): (r: PageResult)
    ensures r.Skipped? <==> IsBlank(page)
    ensures r.Loops? <==> !IsBlank(page) && |Strip(page)| > LargeTextLength
  {
    if IsBlank(page) then Skipped
    else if |Strip(page)| > LargeTextLength then Loops
    else Kept(CleanupSmall(Strip(page), language, ollama, gemini))
  }

  /** The outcome of each page, in order. */
  function PageOutcomes(pages: seq<string>, language: string, ollama: Model, gemini: Model): (r: seq<PageResult>)
    ensures |r| == |pages|
    ensures forall k :: 0 <= k < |pages| ==> r[k] == PageOutcome(pages[k], language, ollama, gemini)
  {
    seq(|pages|, k requires 0 <= k < |pages| => PageOutcome(pages[k], language, ollama, gemini))
  }

  /** What page k adds: nothing when skipped; otherwise the marker before
      it (for every page but the first) and the cleaned page. */
  function PagePiece(results: seq<PageResult>, markers: seq<string>, k: nat): seq<string>
    requires |results| == |markers| + 1 && k < |results|
  {
    if !results[k].Kept? then []
    else (if k > 0 then [markers[k - 1]] else []) + [results[k].text]
  }

  /** The pieces joined for the first n pages; None when one of them does
      not return. */
  function PagePieces(results: seq<PageResult>, markers: seq<string>, n: nat): Option<seq<string>>
    requires |results| == |markers| + 1 && n <= |results|
  {
    if n == 0 then Some([])
    else
      var prev := PagePieces(results, markers, n - 1);
      if prev.None? || results[n - 1].Loops? then None
      else Some(prev.value + PagePiece(results, markers, n - 1))
  }

  /** The cleanup of the first n pages fails to return exactly when one of
      them loops. */
  lemma {:induction false} PagePiecesNoneIff(results: seq<PageResult>, markers: seq<string>, n: nat)
    requires |results| == |markers| + 1 && n <= |results|
    ensures PagePieces(results, markers, n).None? <==> exists k :: 0 <= k < n && results[k].Loops?
  {
    if n > 0 {
      PagePiecesNoneIff(results, markers, n - 1);
      if results[n - 1].Loops? {
        assert 0 <= n - 1 < n;
      }
    }
  }

  /** When every page is kept, the markers come back in place: cleaned
      page k at piece 2k, and the marker before it at piece 2k - 1. */
  lemma {:induction false} PagePiecesKeepMarkers(results: seq<PageResult>, markers: seq<string>, n: nat)
    requires |results| == |markers| + 1 && n <= |results|
    requires forall k :: 0 <= k < n ==> results[k].Kept?
    ensures var ps := PagePieces(results, markers, n);
      && ps.Some?
      && |ps.value| == (if n == 0 then 0 else 2 * n - 1)
      && (forall k :: 0 <= k < n ==> ps.value[2 * k] == results[k].text)
      && (forall k :: 0 < k < n ==> ps.value[2 * k - 1] == markers[k - 1])
  {
    if n > 0 {
      PagePiecesKeepMarkers(results, markers, n - 1);
      var prev := PagePieces(results, markers, n - 1).value;
      var ps := prev + PagePiece(results, markers, n - 1);
      assert PagePieces(results, markers, n) == Some(ps);
      forall k | 0 <= k < n ensures ps[2 * k] == results[k].text {
        if k < n - 1 { assert ps[2 * k] == prev[2 * k]; }
      }
      forall k | 0 < k < n ensures ps[2 * k - 1] == markers[k - 1] {
        if k < n - 1 { assert ps[2 * k - 1] == prev[2 * k - 1]; }
      }
    }
  }

  /** A skipped page takes the marker before it along: neither appears. */
  lemma BlankPageDropsMarker(results: seq<PageResult>, markers: seq<string>, n: nat)
    requires |results| == |markers| + 1 && 0 < n <= |results|
    requires results[n - 1].Skipped?
    ensures PagePieces(results, markers, n) == PagePieces(results, markers, n - 1)
  {
    var prev := PagePieces(results, markers, n - 1);
    if prev.Some? {
      assert prev.value + [] == prev.value;
    }
  }

  /** The outcome of a cleanup: the cleaned text, or no return at all. */
  datatype Outcome = Cleaned(text: string) | Diverges

  /** `_cleanup_large_text` */
  function CleanupLarge(text: string, language: string, ollama: Model, gemini: Model): Outcome
  {
    var pages := Pages(text);
    var pieces := PagePieces(PageOutcomes(pages, language, ollama, gemini), Markers(text), |pages|);
    if pieces.None? then Diverges else Cleaned(Join(pieces.value, "\n\n"))
  }

  /** `cleanup_text` */
  function CleanupText(text: string, language: string, ollama: Model, gemini: Model): Outcome
  {
    if |text| > LargeTextLength then CleanupLarge(text, language, ollama, gemini)
    else Cleaned(CleanupSmall(text, language, ollama, gemini))
  }

  /** Why a long page does not return: for a stripped text of more than
      3000 characters with no marker, `_cleanup_large_text` finds one page,
      the text itself, and hands `cleanup_text` exactly the text it was
      given, which sends it back to `_cleanup_large_text`. */
  lemma LongPageRecursesOnItself(t: string)
    requires IsStripped(t) && |t| > LargeTextLength
    requires forall j :: 0 <= j < |t| ==> Utils.MarkerAt(t, j).None?
    ensures Pages(t) == [t] && Markers(t) == []
    ensures !IsBlank(t) && Strip(t) == t && |Strip(t)| > LargeTextLength
  {
    SplitWithDelimsFacts(t, 0, 0, PageMarkers(t));
    forall j | 0 <= j < |t| ensures !Hit(t, j, PageMarkers(t)) {
      MarkerHit(t, j);
    }
    var parts := Parts(t);
    assert |parts| == 1;
    assert parts[1..] == [];
    assert Flatten(parts) == parts[0] + Flatten(parts[1..]);
    assert t[0..] == t;
    assert parts[0] + [] == parts[0];
    assert parts == [t];
    assert Unzip(parts) == ([t], []);
    StripOfStripped(t);
  }

  /** No "[PAGE n]" marker starts anywhere in s. */
  predicate NoMarker(s: string)
  {
    forall j :: 0 <= j < |s| ==> Utils.MarkerAt(s, j).None?
  }

  lemma NoMarkerInSlice(s: string, a: nat, b: nat)
    requires a <= b <= |s|
    requires forall j :: a <= j < b ==> Utils.MarkerAt(s, j).None?
    ensures NoMarker(s[a..b])
  {
    forall j | 0 <= j < b - a
      ensures Utils.MarkerAt(s[a..b], j).None?
    {
      Utils.MarkerInSlice(s, a, b, j);
    }
  }

  /** No even part of a split (no piece between markers) holds a marker. */
  ghost predicate EvenPartsClean(r: seq<string>)
  {
    forall q :: 0 <= q < |r| && q % 2 == 0 ==> NoMarker(r[q])
  }

  lemma EvenPartsCons(first: string, delim: string, rest: seq<string>)
    requires NoMarker(first) && EvenPartsClean(rest)
    ensures EvenPartsClean([first, delim] + rest)
  {
    var r := [first, delim] + rest;
    forall q | 0 < q < |r| && q % 2 == 0
      ensures NoMarker(r[q])
    {
      assert r[q] == rest[q - 2];
    }
  }

  lemma EvenPartAt(r: seq<string>, k: nat)
    requires EvenPartsClean(r) && 2 * k < |r|
    ensures NoMarker(r[2 * k])
  {
    assert (2 * k) % 2 == 0;
  }

  /** The pieces between markers (the even parts of the split) carry no
      marker of their own. */
  lemma {:induction false} SplitPiecesNoMarker(s: string, start: nat, i: nat)
    requires start <= i <= |s|
    requires forall j :: start <= j < i ==> Utils.MarkerAt(s, j).None?
    ensures EvenPartsClean(SplitWithDelims(s, start, i, PageMarkers(s)))
    decreases |s| - i
  {
    var m := PageMarkers(s);
    if i == |s| {
      NoMarkerInSlice(s, start, |s|);
      assert s[start..] == s[start..|s|];
      assert SplitWithDelims(s, start, i, m) == [s[start..]];
    } else if Hit(s, i, m) {
      var e := i + m(i).value.len;
      NoMarkerInSlice(s, start, i);
      SplitPiecesNoMarker(s, e, e);
      assert SplitWithDelims(s, start, i, m) == [s[start..i], s[i..e]] + SplitWithDelims(s, e, e, m);
      EvenPartsCons(s[start..i], s[i..e], SplitWithDelims(s, e, e, m));
    } else {
      MarkerHit(s, i);
      SplitPiecesNoMarker(s, start, i + 1);
      assert SplitWithDelims(s, start, i, m) == SplitWithDelims(s, start, i + 1, m);
    }
  }

  /** The pages are the even parts of the split. */
  lemma {:induction false} UnzipPages(parts: seq<string>)
    requires |parts| % 2 == 1
    ensures 2 * |Unzip(parts).0| == |parts| + 1
    ensures forall k :: 0 <= k < |Unzip(parts).0| ==> Unzip(parts).0[k] == parts[2 * k]
    decreases |parts|
  {
    if |parts| >= 3 {
      var rest := parts[2..];
      UnzipPages(rest);
      forall k | 0 < k < |Unzip(parts).0|
        ensures Unzip(parts).0[k] == parts[2 * k]
      {
        assert Unzip(parts).0[k] == Unzip(rest).0[k - 1];
        assert rest[2 * (k - 1)] == parts[2 * k];
      }
    }
  }

  /** Stripping a text without markers leaves none. */
  lemma StripNoMarker(p: string)
    requires NoMarker(p)
    ensures NoMarker(Strip(p))
  {
    var t := Strip(p);
    StripBySlice(p, IsSpace);
    var a := |p| - |LStripBy(p, IsSpace)|;
    assert a + |t| <= |p| && t == p[a..a + |t|];
    NoMarkerInSlice(p, a, a + |t|);
  }

  /** No page of `_cleanup_large_text`'s split holds a marker, and neither
      does its stripped text. */
  lemma PagesHaveNoMarker(text: string)
    ensures forall p :: p in Pages(text) ==> NoMarker(p) && NoMarker(Strip(p))
  {
    var parts := Parts(text);
    var pages := Pages(text);
    SplitPiecesNoMarker(text, 0, 0);
    assert EvenPartsClean(parts);
    UnzipPages(parts);
    forall p | p in pages
      ensures NoMarker(p) && NoMarker(Strip(p))
    {
      var k :| 0 <= k < |pages| && pages[k] == p;
      EvenPartAt(parts, k);
      StripNoMarker(p);
    }
  }

  /** So a page the loop sends back into `_cleanup_large_text` (a non-blank
      page whose stripped text is over 3000 characters) is split into the
      one page it already is, with no marker: the call repeats itself. */
  lemma LongPageLoops(text: string, page: string, language: string, ollama: Model, gemini: Model)
    requires page in Pages(text) && PageOutcome(page, language, ollama, gemini).Loops?
    ensures Pages(Strip(page)) == [Strip(page)] && Markers(Strip(page)) == []
  {
    PagesHaveNoMarker(text);
    LongPageRecursesOnItself(Strip(page));
  }

  class CleanupAgent {
    const primaryModel: string
    const fallbackModel: string

    /** `__init__`: the primary model's name without its provider prefix. */
    constructor(llmPrimary: string, llmFallback: string)
      ensures primaryModel == Decomposition.ParseModelName(llmPrimary)
      ensures fallbackModel == llmFallback
    {
      primaryModel := Decomposition.ParseModelName(llmPrimary);
      fallbackModel := llmFallback;
    }

    /** `cleanup_text` */
    method CleanupTextMethod(text: string, language: string, ollama: Model, gemini: Model) returns (r: Outcome)
      ensures r == CleanupText(text, language, ollama, gemini)
    {
      if |text| > LargeTextLength {
        r := CleanupLargeText(text, language, ollama, gemini);
      } else {
        r := Cleaned(CleanupSmall(text, language, ollama, gemini));
      }
    }

    /** `_cleanup_large_text`: the loop over the pages. */
    method CleanupLargeText(text: string, language: string, ollama: Model, gemini: Model) returns (r: Outcome)
      ensures r == CleanupLarge(text, language, ollama, gemini)
    {
      var pages := Pages(text);
      var markers := Markers(text);
      ghost var results := PageOutcomes(pages, language, ollama, gemini);
      var cleanedPages: seq<string> := [];
      for i := 0 to |pages|
        invariant PagePieces(results, markers, i) == Some(cleanedPages)
      {
        var pageText := pages[i];
        assert results[i] == PageOutcome(pageText, language, ollama, gemini);
        if IsBlank(pageText) {
          BlankPageDropsMarker(results, markers, i + 1);
          continue;
        }
        if |Strip(pageText)| > LargeTextLength {
          // `cleanup_text(page_text.strip())` comes back here with the
          // same text (LongPageRecursesOnItself)
          PagePiecesNoneIff(results, markers, |pages|);
          assert 0 <= i < |pages| && results[i].Loops?;
          return Diverges;
        }
        var cleaned := CleanupSmall(Strip(pageText), language, ollama, gemini);
        ghost var before := cleanedPages;
        if i > 0 {
          cleanedPages := cleanedPages + [markers[i - 1]];
        }
        cleanedPages := cleanedPages + [cleaned];
        assert cleanedPages == before + PagePiece(results, markers, i);
      }
      return Cleaned(Join(cleanedPages, "\n\n"));
    }
  }
}
