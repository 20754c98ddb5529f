/** src/common/utils.py: CJK detection, whitespace normalisation, OCR
    clean-up, sentence splitting, truncation, page markers, language codes,
    list chunking and document ids. */
module Utils {
  import opened Seqs
  import opened Text

  // ---------------------------------------------------------------------
  // Document ids and languages
  // ---------------------------------------------------------------------

  /** `f"{language}_{file_path.stem}_{file_hash[:8]}"`; the SHA-256 of the
      file is a parameter. */
  function GenerateDocId(stem: string, language: string, fileHash: string): (id: string)
    ensures |id| > |language| && id[..|language| + 1] == language + "_"
    ensures |fileHash| >= 8 ==> |id| >= 9 && id[|id| - 9..] == "_" + fileHash[..8]
  {
    language + "_" + stem + "_" + PySliceTo(fileHash, 8)
  }

  const LanguageDirs: seq<string> := ["en", "zh", "hi", "bn", "ur"]

  /** The language is the name of the file's parent directory when that is
      one of the five supported codes. */
  function DetectLanguageFromPath(parentName: string): (r: Option<string>)
    ensures r.Some? <==> parentName in LanguageDirs
    ensures r.Some? ==> r.value == parentName
  {
    if parentName in LanguageDirs then Some(parentName) else None
  }

  /** `mapping.get(lang, "eng")` */
  function LanguageToTesseractCode(lang: string): (code: string)
    ensures lang !in LanguageDirs ==> code == "eng"
    ensures code in ["eng", "chi_sim", "hin", "ben", "urd"]
  {
    match lang
    case "en" => "eng"
    case "zh" => "chi_sim"
    case "hi" => "hin"
    case "bn" => "ben"
    case "ur" => "urd"
    case _ => "eng"
  }

  lemma TesseractCodesOfSupportedLanguages()
    ensures Map(LanguageDirs, LanguageToTesseractCode) == ["eng", "chi_sim", "hin", "ben", "urd"]
  {
    var r := Map(LanguageDirs, LanguageToTesseractCode);
    assert r[0] == LanguageToTesseractCode("en") == "eng";
    assert r[1] == LanguageToTesseractCode("zh") == "chi_sim";
    assert r[2] == LanguageToTesseractCode("hi") == "hin";
    assert r[3] == LanguageToTesseractCode("bn") == "ben";
    assert r[4] == LanguageToTesseractCode("ur") == "urd";
  }

  // ---------------------------------------------------------------------
  // CJK detection
  // ---------------------------------------------------------------------

  /** The eight code-point ranges counted as CJK. */
  const CjkRanges: seq<(int, int)> := [
    (0x4E00, 0x9FFF), (0x3400, 0x4DBF), (0x20000, 0x2A6DF), (0x2A700, 0x2B73F),
    (0x2B740, 0x2B81F), (0x2B820, 0x2CEAF), (0x3000, 0x303F), (0xFF00, 0xFFEF)]

  predicate IsCjkCode(c: char)
  {
    var code := c as int;
    (0x4E00 <= code <= 0x9FFF) || (0x3400 <= code <= 0x4DBF)
    || (0x20000 <= code <= 0x2A6DF) || (0x2A700 <= code <= 0x2B73F)
    || (0x2B740 <= code <= 0x2B81F) || (0x2B820 <= code <= 0x2CEAF)
    || (0x3000 <= code <= 0x303F) || (0xFF00 <= code <= 0xFFEF)
  }

  /** `is_cjk_char(ch)` for a string of at most one character: the empty
      string is not CJK. */
  function IsCjkChar(ch: string): (b: bool)
    requires |ch| <= 1
    ensures b <==> |ch| == 1 && exists k :: 0 <= k < |CjkRanges| && CjkRanges[k].0 <= ch[0] as int <= CjkRanges[k].1
  {
    if ch == "" then false
    else
      var code := ch[0] as int;
      assert (exists k :: 0 <= k < |CjkRanges| && CjkRanges[k].0 <= code <= CjkRanges[k].1) <==> IsCjkCode(ch[0]) by {
        if IsCjkCode(ch[0]) {
          if 0x4E00 <= code <= 0x9FFF { assert CjkRanges[0].0 <= code <= CjkRanges[0].1; }
          else if 0x3400 <= code <= 0x4DBF { assert CjkRanges[1].0 <= code <= CjkRanges[1].1; }
          else if 0x20000 <= code <= 0x2A6DF { assert CjkRanges[2].0 <= code <= CjkRanges[2].1; }
          else if 0x2A700 <= code <= 0x2B73F { assert CjkRanges[3].0 <= code <= CjkRanges[3].1; }
          else if 0x2B740 <= code <= 0x2B81F { assert CjkRanges[4].0 <= code <= CjkRanges[4].1; }
          else if 0x2B820 <= code <= 0x2CEAF { assert CjkRanges[5].0 <= code <= CjkRanges[5].1; }
          else if 0x3000 <= code <= 0x303F { assert CjkRanges[6].0 <= code <= CjkRanges[6].1; }
          else { assert CjkRanges[7].0 <= code <= CjkRanges[7].1; }
        }
      }
      IsCjkCode(ch[0])
  }

  /** `sum(1 for char in text if is_cjk_char(char))` */
  function CountCjkChars(text: string): (n: nat)
    ensures n <= |text|
    ensures n == 0 <==> forall i :: 0 <= i < |text| ==> !IsCjkCode(text[i])
    ensures n == |text| <==> forall i :: 0 <= i < |text| ==> IsCjkCode(text[i])
  {
    if text == [] then 0
    else
      assert forall i :: 1 <= i < |text| ==> text[1..][i - 1] == text[i];
      (if IsCjkChar([text[0]]) then 1 else 0) + CountCjkChars(text[1..])
  }

  lemma {:induction false} CountCjkAppend(a: string, b: string)
    ensures CountCjkChars(a + b) == CountCjkChars(a) + CountCjkChars(b)
  {
    if a == [] {
      assert a + b == b;
    } else {
      assert (a + b)[1..] == a[1..] + b;
      CountCjkAppend(a[1..], b);
    }
  }

  /** `count / total >= threshold`, for a positive total. */
  function ShareAtLeast(count: nat, total: nat, threshold: real): (b: bool)
    requires total > 0
    ensures b <==> (count as real) >= threshold * (total as real)
  {
    DivAtLeast(count as real, total as real, threshold);
    (count as real) / (total as real) >= threshold
  }

  /** The CJK count is taken over the whole text but divided by the length
      of the stripped text. */
  function IsCjkText(text: string, threshold: real): (b: bool)
    ensures b <==> Strip(text) != ""
                   && (CountCjkChars(text) as real) >= threshold * (|Strip(text)| as real)
  {
    if text == "" then false
    else
      var total := |Strip(text)|;
      if total == 0 then false
      else ShareAtLeast(CountCjkChars(text), total, threshold)
  }

  lemma DivAtLeast(x: real, t: real, th: real)
    requires t > 0.0
    ensures x / t >= th <==> x >= th * t
  {
    assert x == (x / t) * t;
    if x / t >= th {
      assert (x / t) * t >= th * t;
    } else {
      assert (x / t) * t < th * t;
    }
  }

  /** Whitespace-only text is never CJK text, whatever the threshold. */
  lemma BlankIsNotCjk(text: string, threshold: real)
    requires forall i :: 0 <= i < |text| ==> IsSpace(text[i])
    ensures !IsCjkText(text, threshold)
  {
    StripEmpty(text);
  }

  // ---------------------------------------------------------------------
  // Runs of one character: `re.sub(c + c*(k-1) + '+', c*k, s)` keeps every
  // maximal run of c but shortens it to at most k characters.
  // ---------------------------------------------------------------------

  /** Cap every run of c at k characters, given that `run` copies of c
      immediately precede s. */
  function CapRuns(s: string, c: char, k: nat, run: nat): string
  {
    if s == [] then []
    else if s[0] == c then
      (if run >= k then CapRuns(s[1..], c, k, run) else [c] + CapRuns(s[1..], c, k, run + 1))
    else [s[0]] + CapRuns(s[1..], c, k, 0)
  }

  /** s, preceded by `run` copies of c, has no run of c longer than k. */
  predicate RunsAtMost(s: string, c: char, k: nat, run: nat)
  {
    s == [] ||
    if s[0] == c then run < k && RunsAtMost(s[1..], c, k, run + 1)
    else RunsAtMost(s[1..], c, k, 0)
  }

  ghost predicate NoDoubleChar(s: string, c: char)
  {
    forall i :: 0 <= i < |s| - 1 ==> !(s[i] == c && s[i + 1] == c)
  }

  ghost predicate NoTripleChar(s: string, c: char)
  {
    forall i :: 0 <= i < |s| - 2 ==> !(s[i] == c && s[i + 1] == c && s[i + 2] == c)
  }

  lemma {:induction false} CapRunsBounded(s: string, c: char, k: nat, run: nat)
    requires run <= k
    ensures RunsAtMost(CapRuns(s, c, k, run), c, k, run)
  {
    if s != [] {
      if s[0] == c {
        if run >= k { CapRunsBounded(s[1..], c, k, run); }
        else { CapRunsBounded(s[1..], c, k, run + 1); }
      } else {
        CapRunsBounded(s[1..], c, k, 0);
      }
    }
  }

  /** Capping leaves a string alone when its runs are already short. */
  lemma {:induction false} CapRunsOfBounded(s: string, c: char, k: nat, run: nat)
    requires RunsAtMost(s, c, k, run)
    ensures CapRuns(s, c, k, run) == s
  {
    if s != [] {
      if s[0] == c { CapRunsOfBounded(s[1..], c, k, run + 1); }
      else { CapRunsOfBounded(s[1..], c, k, 0); }
    }
  }

  /** Capping runs of d does not lengthen runs of another character c. */
  lemma {:induction false} CapRunsKeepsOther(s: string, d: char, k: nat, runD: nat, c: char, m: nat, runC: nat)
    requires c != d && k >= 1 && runD <= k
    requires runD > 0 ==> runC == 0
    requires RunsAtMost(s, c, m, runC)
    ensures RunsAtMost(CapRuns(s, d, k, runD), c, m, runC)
  {
    if s != [] {
      if s[0] == d {
        if runD >= k { CapRunsKeepsOther(s[1..], d, k, runD, c, m, 0); }
        else { CapRunsKeepsOther(s[1..], d, k, runD + 1, c, m, 0); }
      } else if s[0] == c {
        CapRunsKeepsOther(s[1..], d, k, 0, c, m, runC + 1);
      } else {
        CapRunsKeepsOther(s[1..], d, k, 0, c, m, 0);
      }
    }
  }

  lemma {:induction false} RunsAtMostWeaken(s: string, c: char, k: nat, run: nat, run': nat)
    requires RunsAtMost(s, c, k, run) && run' <= run
    ensures RunsAtMost(s, c, k, run')
  {
    if s != [] {
      if s[0] == c { RunsAtMostWeaken(s[1..], c, k, run + 1, run' + 1); }
    }
  }

  lemma {:induction false} RunsAtMostPrefix(s: string, c: char, k: nat, run: nat, j: nat)
    requires RunsAtMost(s, c, k, run) && j <= |s|
    ensures RunsAtMost(s[..j], c, k, run)
  {
    if j > 0 {
      assert s[..j][1..] == s[1..][..j - 1];
      if s[0] == c { RunsAtMostPrefix(s[1..], c, k, run + 1, j - 1); }
      else { RunsAtMostPrefix(s[1..], c, k, 0, j - 1); }
    }
  }

  lemma {:induction false} RunsAtMostSuffix(s: string, c: char, k: nat, run: nat, a: nat)
    requires RunsAtMost(s, c, k, run) && a <= |s|
    ensures RunsAtMost(s[a..], c, k, 0)
  {
    if a == 0 {
      RunsAtMostWeaken(s, c, k, run, 0);
    } else {
      assert s[a..] == s[1..][a - 1..];
      if s[0] == c { RunsAtMostSuffix(s[1..], c, k, run + 1, a - 1); }
      else { RunsAtMostSuffix(s[1..], c, k, 0, a - 1); }
    }
  }

  lemma RunsAtMostSlice(s: string, c: char, k: nat, a: nat, b: nat)
    requires RunsAtMost(s, c, k, 0) && a <= b <= |s|
    ensures RunsAtMost(s[a..b], c, k, 0)
  {
    var t := s[a..];
    RunsAtMostSuffix(s, c, k, 0, a);
    assert RunsAtMost(t, c, k, 0);
    assert t[..b - a] == s[a..b];
    RunsAtMostPrefix(t, c, k, 0, b - a);
  }

  lemma RunsAtMostStripBy(s: string, c: char, k: nat, p: char -> bool)
    requires RunsAtMost(s, c, k, 0)
    ensures RunsAtMost(StripBy(s, p), c, k, 0)
  {
    var t := StripBy(s, p);
    var a := |s| - |LStripBy(s, p)|;
    StripBySlice(s, p);
    RunsAtMostSlice(s, c, k, a, a + |t|);
  }

  lemma RunsAtMostStrip(s: string, c: char, k: nat)
    requires RunsAtMost(s, c, k, 0)
    ensures RunsAtMost(Strip(s), c, k, 0)
  {
    RunsAtMostStripBy(s, c, k, IsSpace);
  }

  /** With k = 1 the bound means "no two adjacent c". */
  lemma {:induction false} RunsAtMostOneMeansNoDouble(s: string, c: char, run: nat)
    requires run <= 1
    requires RunsAtMost(s, c, 1, run)
    ensures NoDoubleChar(s, c)
  {
    if s != [] {
      if s[0] == c { RunsAtMostOneMeansNoDouble(s[1..], c, 1); }
      else { RunsAtMostOneMeansNoDouble(s[1..], c, 0); }
      forall i | 0 <= i < |s| - 1 ensures !(s[i] == c && s[i + 1] == c) {
        if i > 0 { assert s[i] == s[1..][i - 1] && s[i + 1] == s[1..][i]; }
      }
    }
  }

  /** With k = 2 the bound means "no three adjacent c". */
  lemma {:induction false} RunsAtMostTwoMeansNoTriple(s: string, c: char, run: nat)
    requires run <= 2
    requires RunsAtMost(s, c, 2, run)
    ensures NoTripleChar(s, c)
  {
    if s != [] {
      if s[0] == c { RunsAtMostTwoMeansNoTriple(s[1..], c, run + 1); }
      else { RunsAtMostTwoMeansNoTriple(s[1..], c, 0); }
      forall i | 0 <= i < |s| - 2 ensures !(s[i] == c && s[i + 1] == c && s[i + 2] == c) {
        if i > 0 {
          assert s[i] == s[1..][i - 1] && s[i + 1] == s[1..][i] && s[i + 2] == s[1..][i + 1];
        } else if s[0] == c && s[1] == c {
          assert RunsAtMost(s[1..], c, 2, run + 1);
          assert s[1..][0] == c;
          assert s[2..] == s[1..][1..];
          assert RunsAtMost(s[2..], c, 2, run + 2);
          assert s[2..][0] == s[2];
        }
      }
    }
  }

  // ---------------------------------------------------------------------
  // normalize_whitespace and clean_ocr_text
  // ---------------------------------------------------------------------

  /** `re.sub(r' +', ' ', text)`, then `re.sub(r'\n\n+', '\n\n', ...)`,
      then `strip()`. */
  function NormalizeWhitespace(text: string): string
  {
    Strip(CapRuns(CapRuns(text, ' ', 1, 0), '\n', 2, 0))
  }

  predicate IsNormalized(s: string)
  {
    IsStripped(s) && RunsAtMost(s, ' ', 1, 0) && RunsAtMost(s, '\n', 2, 0)
  }

  lemma NormalizeWhitespaceNormalizes(text: string)
    ensures IsNormalized(NormalizeWhitespace(text))
  {
    var a := CapRuns(text, ' ', 1, 0);
    var b := CapRuns(a, '\n', 2, 0);
    CapRunsBounded(text, ' ', 1, 0);
    CapRunsKeepsOther(a, '\n', 2, 0, ' ', 1, 0);
    CapRunsBounded(a, '\n', 2, 0);
    RunsAtMostStrip(b, ' ', 1);
    RunsAtMostStrip(b, '\n', 2);
  }

  /** No double space, no triple newline, no surrounding whitespace. */
  lemma NormalizeWhitespaceFacts(text: string)
    ensures var r := NormalizeWhitespace(text);
      NoDoubleChar(r, ' ') && NoTripleChar(r, '\n') && IsStripped(r)
  {
    NormalizeWhitespaceNormalizes(text);
    RunsAtMostOneMeansNoDouble(NormalizeWhitespace(text), ' ', 0);
    RunsAtMostTwoMeansNoTriple(NormalizeWhitespace(text), '\n', 0);
  }

  lemma NormalizeWhitespaceOfNormalized(s: string)
    requires IsNormalized(s)
    ensures NormalizeWhitespace(s) == s
  {
    CapRunsOfBounded(s, ' ', 1, 0);
    CapRunsOfBounded(s, '\n', 2, 0);
    StripOfStripped(s);
  }

  lemma NormalizeWhitespaceIdempotent(text: string)
    ensures NormalizeWhitespace(NormalizeWhitespace(text)) == NormalizeWhitespace(text)
  {
    NormalizeWhitespaceNormalizes(text);
    NormalizeWhitespaceOfNormalized(NormalizeWhitespace(text));
  }

  /** `s.replace(a, b)` for single characters. */
  function ReplaceChar(s: string, a: char, b: char): (r: string)
    ensures |r| == |s|
    ensures forall i :: 0 <= i < |s| ==> r[i] == (if s[i] == a then b else s[i])
  {
    seq(|s|, i requires 0 <= i < |s| => if s[i] == a then b else s[i])
  }

  /** `re.sub(r'[|\\]', '', text)`: drop every '|' and '\'. */
  function RemovePipesAndBackslashes(s: string): (r: string)
    ensures '|' !in r && '\\' !in r
    ensures |r| <= |s|
  {
    Filter(s, (ch: char) => ch != '|' && ch != '\\')
  }

  function CleanOcrText(text: string): (r: string)
    ensures '|' !in r && '\\' !in r
  {
    ReplaceChar(RemovePipesAndBackslashes(NormalizeWhitespace(text)), '|', 'I')
  }

  // ---------------------------------------------------------------------
  // split_into_sentences
  // ---------------------------------------------------------------------

  predicate NoneSatisfy(w: string, p: char -> bool)
  {
    forall j :: 0 <= j < |w| ==> !p(w[j])
  }

  /** `re.split` on a one-character class: every character satisfying p
      separates two pieces. */
  function SplitWhere(s: string, p: char -> bool): (r: seq<string>)
    ensures |r| >= 1
    ensures forall i :: 0 <= i < |r| ==> NoneSatisfy(r[i], p)
    decreases |s|
  {
    var n := FirstWhere(s, p);
    if n == |s| then [s] else [s[..n]] + SplitWhere(s[n + 1..], p)
  }

  /** `re.split` on `[class]+`: every maximal run of characters satisfying
      p separates two pieces. */
  function SplitRuns(s: string, p: char -> bool): (r: seq<string>)
    ensures |r| >= 1
    ensures forall i :: 0 <= i < |r| ==> NoneSatisfy(r[i], p)
    decreases |s|
  {
    var n := FirstWhere(s, p);
    if n == |s| then [s] else [s[..n]] + SplitRuns(LStripBy(s[n..], p), p)
  }

  function FirstWhere(s: string, p: char -> bool): (n: nat)
    ensures n <= |s|
    ensures forall i :: 0 <= i < n ==> !p(s[i])
    ensures n < |s| ==> p(s[n])
  {
    if s == [] || p(s[0]) then 0 else 1 + FirstWhere(s[1..], p)
  }

  predicate IsZhSentenceEnd(c: char) { c == '。' || c == '！' || c == '？' || c == '；' }
  predicate IsSentenceEnd(c: char) { c == '.' || c == '!' || c == '?' }

  /** `[s.strip() for s in pieces if s.strip()]` */
  function StripNonBlank(pieces: seq<string>): (r: seq<string>)
    ensures |r| <= |pieces|
    ensures forall i :: 0 <= i < |r| ==> r[i] != "" && IsStripped(r[i])
  {
    if pieces == [] then []
    else if Strip(pieces[0]) != "" then [Strip(pieces[0])] + StripNonBlank(pieces[1..])
    else StripNonBlank(pieces[1..])
  }

  function SplitIntoSentences(text: string, language: string): (r: seq<string>)
  {
    if language == "zh" then StripNonBlank(SplitWhere(text, IsZhSentenceEnd))
    else StripNonBlank(SplitRuns(text, IsSentenceEnd))
  }

  lemma StripKeepsNone(w: string, p: char -> bool)
    requires NoneSatisfy(w, p)
    ensures NoneSatisfy(Strip(w), p)
  {
    StripBySlice(w, IsSpace);
    var a := |w| - |LStripBy(w, IsSpace)|;
    var t := Strip(w);
    forall j | 0 <= j < |t| ensures !p(t[j]) {
      assert t[j] == w[a + j];
    }
  }

  lemma {:induction false} StripNonBlankKeepsNone(pieces: seq<string>, p: char -> bool)
    requires forall i :: 0 <= i < |pieces| ==> NoneSatisfy(pieces[i], p)
    ensures forall i :: 0 <= i < |StripNonBlank(pieces)| ==> NoneSatisfy(StripNonBlank(pieces)[i], p)
  {
    if pieces != [] {
      StripNonBlankKeepsNone(pieces[1..], p);
      StripKeepsNone(pieces[0], p);
    }
  }

  /** Every sentence is non-empty, stripped and free of the language's
      sentence-ending punctuation. */
  lemma SentencesAreClean(text: string, language: string)
    ensures var r := SplitIntoSentences(text, language);
      && (forall i :: 0 <= i < |r| ==> r[i] != "" && IsStripped(r[i]))
      && (language == "zh" ==> forall i :: 0 <= i < |r| ==> NoneSatisfy(r[i], IsZhSentenceEnd))
      && (language != "zh" ==> forall i :: 0 <= i < |r| ==> NoneSatisfy(r[i], IsSentenceEnd))
  {
    if language == "zh" {
      StripNonBlankKeepsNone(SplitWhere(text, IsZhSentenceEnd), IsZhSentenceEnd);
    } else {
      StripNonBlankKeepsNone(SplitRuns(text, IsSentenceEnd), IsSentenceEnd);
    }
  }

  /** Text with no sentence end is one sentence: itself, stripped. */
  lemma NoSentenceEndIsOneSentence(text: string)
    requires NoneSatisfy(text, IsSentenceEnd)
    requires Strip(text) != ""
    ensures SplitIntoSentences(text, "en") == [Strip(text)]
  {
    assert FirstWhere(text, IsSentenceEnd) == |text|;
  }

  // ---------------------------------------------------------------------
  // truncate_text
  // ---------------------------------------------------------------------

  function TruncateText(text: string, maxLength: int, suffix: string): (r: string)
    ensures |text| <= maxLength ==> r == text
    ensures |text| > maxLength >= |suffix| ==>
              |r| == maxLength && r == text[..maxLength - |suffix|] + suffix
  {
    if |text| <= maxLength then text
    else PySliceTo(text, maxLength - |suffix|) + suffix
  }

  /** A maximum below the suffix length slices from the end, so the result
      is longer than the maximum. */
  lemma TruncateShortMaximum()
    ensures TruncateText("abcdef", 2, "...") == "abcde..."
  {
  }

  // ---------------------------------------------------------------------
  // Page markers
  // ---------------------------------------------------------------------

  function FormatPageMarker(pageNum: int): string
  {
    "\n\n[PAGE " + IntToString(pageNum) + "]\n\n"
  }

  /** Length of the run of ASCII digits starting at i. */
  function DigitRun(s: string, i: nat): (n: nat)
    requires i <= |s|
    ensures i + n <= |s|
    ensures forall j :: i <= j < i + n ==> IsDigit(s[j])
    ensures i + n == |s| || !IsDigit(s[i + n])
    decreases |s| - i
  {
    if i == |s| || !IsDigit(s[i]) then 0 else 1 + DigitRun(s, i + 1)
  }

  /** `\[PAGE (\d+)\]` matched at position i: the page number, if any. */
  function MarkerAt(s: string, i: nat): (r: Option<nat>)
    requires i <= |s|
  {
    var open := "[PAGE ";
    if i + |open| <= |s| && s[i..i + |open|] == open then
      var n := DigitRun(s, i + |open|);
      var close := i + |open| + n;
      if n > 0 && close < |s| && s[close] == ']' then Some(DigitsValue(s[i + |open|..close]))
      else None
    else None
  }

  /** A run of digits that ends at the end of the text or at a non-digit
      is the run `DigitRun` measures. */
  lemma {:induction false} DigitRunUnique(s: string, i: nat, n: nat)
    requires i + n <= |s|
    requires forall j :: i <= j < i + n ==> IsDigit(s[j])
    requires i + n == |s| || !IsDigit(s[i + n])
    ensures DigitRun(s, i) == n
    decreases n
  {
    if n > 0 {
      DigitRunUnique(s, i + 1, n - 1);
    }
  }

  /** The opening "[PAGE ", a run of n > 0 digits and the closing
      bracket make a marker. */
  lemma MarkerOfParts(s: string, i: nat, n: nat)
    requires i + 6 + n < |s| && s[i..i + 6] == "[PAGE " && n > 0
    requires forall j :: i + 6 <= j < i + 6 + n ==> IsDigit(s[j])
    requires s[i + 6 + n] == ']'
    ensures MarkerAt(s, i).Some?
  {
    DigitRunUnique(s, i + 6, n);
  }

  /** A marker inside a slice of a text is a marker of the text too: the
      pattern looks only forward, and the closing bracket ends it inside
      the slice. */
  lemma MarkerInSlice(s: string, a: nat, b: nat, j: nat)
    requires a <= b <= |s| && j <= b - a
    ensures MarkerAt(s[a..b], j).Some? ==> MarkerAt(s, a + j).Some?
  {
    var p := s[a..b];
    if MarkerAt(p, j).Some? {
      assert j + 6 <= |p| && p[j..j + 6] == "[PAGE ";
      var n := DigitRun(p, j + 6);
      assert n > 0 && j + 6 + n < |p| && p[j + 6 + n] == ']';
      forall t | 0 <= t < 6
        ensures s[a + j + t] == "[PAGE "[t]
      {
        assert s[a + j + t] == p[j + t] == p[j..j + 6][t];
      }
      forall k | a + j + 6 <= k < a + j + 6 + n
        ensures IsDigit(s[k])
      {
        assert s[k] == p[k - a];
      }
      assert s[a + j + 6 + n] == p[j + 6 + n];
      MarkerOfParts(s, a + j, n);
    }
  }

  /** `re.search(r'\[PAGE (\d+)\]', text)` from position i: the leftmost match. */
  function FindMarkerFrom(s: string, i: nat): (r: Option<nat>)
    requires i <= |s|
    decreases |s| - i
  {
    if MarkerAt(s, i).Some? then MarkerAt(s, i)
    else if i == |s| then None
    else FindMarkerFrom(s, i + 1)
  }

  /** The search finds nothing exactly when no position from i holds a
      marker, and otherwise the number of the first marker. */
  lemma {:induction false} FindMarkerFromFacts(s: string, i: nat)
    requires i <= |s|
    ensures FindMarkerFrom(s, i).None? <==> forall j :: i <= j <= |s| ==> MarkerAt(s, j).None?
    ensures FindMarkerFrom(s, i).Some? ==>
              exists j :: i <= j <= |s| && MarkerAt(s, j) == FindMarkerFrom(s, i)
                          && forall j' :: i <= j' < j ==> MarkerAt(s, j').None?
    decreases |s| - i
  {
    var r := FindMarkerFrom(s, i);
    if MarkerAt(s, i).Some? {
      assert r == MarkerAt(s, i);
    } else if i == |s| {
      assert r.None?;
    } else {
      assert r == FindMarkerFrom(s, i + 1);
      FindMarkerFromFacts(s, i + 1);
      if r.Some? {
        var j :| i + 1 <= j <= |s| && MarkerAt(s, j) == r
                 && forall j' :: i + 1 <= j' < j ==> MarkerAt(s, j').None?;
        assert forall j' :: i <= j' < j ==> MarkerAt(s, j').None?;
        assert i <= j <= |s| && MarkerAt(s, j) == r && forall j' :: i <= j' < j ==> MarkerAt(s, j').None?;
      } else {
        assert forall j :: i <= j <= |s| ==> MarkerAt(s, j).None?;
      }
    }
  }

  function ExtractPageNumberFromMarker(text: string): Option<nat>
  {
    FindMarkerFrom(text, 0)
  }

  /** No page number exactly when the text has no marker; otherwise the
      number of its first marker. */
  lemma ExtractPageNumberFacts(text: string)
    ensures ExtractPageNumberFromMarker(text).None? <==> forall j :: 0 <= j <= |text| ==> MarkerAt(text, j).None?
    ensures ExtractPageNumberFromMarker(text).Some? ==>
              exists j :: 0 <= j <= |text| && MarkerAt(text, j) == ExtractPageNumberFromMarker(text)
                          && forall j' :: 0 <= j' < j ==> MarkerAt(text, j').None?
  {
    FindMarkerFromFacts(text, 0);
  }

  /** The marker of page n, followed by any text, yields n. */
  lemma MarkerRoundTrip(n: nat, rest: string)
    ensures ExtractPageNumberFromMarker(FormatPageMarker(n) + rest) == Some(n)
  {
    var digits := NatToString(n);
    var head := "\n\n[PAGE ";
    var s := FormatPageMarker(n) + rest;
    assert s == head + digits + ("]\n\n" + rest);
    var m := 8 + |digits|;
    assert s[..8] == head;
    assert s[8..m] == digits;
    assert s[m] == ']';
    assert s[0] == '\n' && s[1] == '\n';
    assert MarkerAt(s, 0).None? by { assert s[0..6][0] != '['; }
    assert MarkerAt(s, 1).None? by { assert s[1..7][0] != '['; }
    assert s[2..8] == "[PAGE ";
    DigitRunExact(s, 8, |digits|);
    DigitsValueOfNatToString(n);
    assert MarkerAt(s, 2) == Some(n);
    assert FindMarkerFrom(s, 2) == Some(n);
    assert FindMarkerFrom(s, 1) == Some(n);
  }

  lemma {:induction false} DigitRunExact(s: string, i: nat, n: nat)
    requires i + n < |s|
    requires forall j :: i <= j < i + n ==> IsDigit(s[j])
    requires !IsDigit(s[i + n])
    ensures DigitRun(s, i) == n
    decreases n
  {
    if n > 0 { DigitRunExact(s, i + 1, n - 1); }
  }

  // ---------------------------------------------------------------------
  // chunk_list
  // ---------------------------------------------------------------------

  /** `[lst[i:i + size] for i in range(0, len(lst), size)]`; `range` rejects
      a zero step (None here), and a negative step gives no pieces. */
  function ChunkList<T>(lst: seq<T>, size: int): (r: Option<seq<seq<T>>>)
    ensures r.None? <==> size == 0
  {
    if size == 0 then None
    else if size < 0 then Some([])
    else Some(Pieces(lst, size))
  }

  function Pieces<T>(lst: seq<T>, size: nat): (r: seq<seq<T>>)
    requires size > 0
    ensures forall i :: 0 <= i < |r| ==> 0 < |r[i]| <= size
    ensures forall i :: 0 <= i < |r| - 1 ==> |r[i]| == size
    decreases |lst|
  {
    if lst == [] then []
    else if |lst| <= size then [lst]
    else [lst[..size]] + Pieces(lst[size..], size)
  }

  /** The pieces concatenate back to the list, and there are
      ceil(|lst| / size) of them. */
  lemma {:induction false} PiecesFacts<T>(lst: seq<T>, size: nat)
    requires size > 0
    ensures Flatten(Pieces(lst, size)) == lst
    ensures |Pieces(lst, size)| * size >= |lst| > (|Pieces(lst, size)| - 1) * size
    decreases |lst|
  {
    if lst != [] && |lst| > size {
      var rest := Pieces(lst[size..], size);
      PiecesFacts(lst[size..], size);
      assert ([lst[..size]] + rest)[1..] == rest;
      assert lst == lst[..size] + lst[size..];
    }
  }
}
