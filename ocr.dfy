/** src/agents/ocr_agent.py: the text of every page of a PDF, read directly
    from digital pages and through Tesseract from scanned and mixed ones,
    each prefixed with its page marker. Tesseract is a parameter. */
module Ocr {
  import opened Seqs
  import opened Text
  import Utils
  import PdfTypeDetector

  type Pdf = PdfTypeDetector.Pdf

  /** Tesseract run on the 300-dpi image of page k with a Tesseract
      language code: its raw text, None when the page cannot be turned into
      an image or Tesseract raises. */
  type OcrEngine = (nat, string) -> Option<string>

  /** Pages are joined with this separator. */
  const PageSeparator: string := "\n\n"

  /** `extract_text_from_digital_page`: the stripped text of the page, ""
      when it cannot be read. */
  function DigitalText(pdf: Pdf, k: nat): (t: string)
    ensures IsStripped(t)
  {
    if pdf.None? || k >= |pdf.value| || pdf.value[k].None? then ""
    else Strip(pdf.value[k].value.text)
  }

  /** `extract_text_from_scanned_page`: Tesseract's stripped text, "" on
      failure; the document's language is first mapped to its Tesseract
      code. */
  function ScannedText(ocr: OcrEngine, k: nat, language: string): (t: string)
    ensures IsStripped(t)
  {
    var raw := ocr(k, Utils.LanguageToTesseractCode(language));
    if raw.None? then "" else Strip(raw.value)
  }

  /** The text of page k, prefixed with its marker. */
  function PageText(pdf: Pdf, types: seq<PdfTypeDetector.PageType>, k: nat, language: string, ocr: OcrEngine): string
    requires k < |types|
  {
    Utils.FormatPageMarker(k)
      + (if types[k] == PdfTypeDetector.Digital then DigitalText(pdf, k) else ScannedText(ocr, k, language))
  }

  /** `process_document`'s result: a marked text for each page whose type
      was detected, and nothing when detection found no page. */
  function PageTexts(pdf: Pdf, threshold: int, language: string, ocr: OcrEngine): map<int, string>
  {
    var types := PdfTypeDetector.PageTypes(pdf, threshold);
    PageTextsBefore(pdf, types, |types|, language, ocr)
  }

  /** The page texts of the first n pages. */
  function PageTextsBefore(pdf: Pdf, types: seq<PdfTypeDetector.PageType>, n: nat, language: string, ocr: OcrEngine)
    : map<int, string>
    requires n <= |types|
  {
    map k | 0 <= k < n :: PageText(pdf, types, k, language, ocr)
  }

  /** Reading page n adds its text and changes no other page. */
  lemma PageTextsBeforeNext(pdf: Pdf, types: seq<PdfTypeDetector.PageType>, n: nat, language: string, ocr: OcrEngine)
    requires n < |types|
    ensures PageTextsBefore(pdf, types, n + 1, language, ocr)
      == PageTextsBefore(pdf, types, n, language, ocr)[n := PageText(pdf, types, n, language, ocr)]
  {
  }

  /** The result has exactly the pages of the page-type map; a digital
      page is read directly and any other through OCR; every value starts
      with the marker of its own page, which reads back as that page. */
  lemma PageTextsFacts(pdf: Pdf, threshold: int, language: string, ocr: OcrEngine)
    ensures var types := PdfTypeDetector.PageTypes(pdf, threshold);
      var texts := PageTexts(pdf, threshold, language, ocr);
      && (types == [] ==> texts == map[])
      && texts.Keys == PdfTypeDetector.AsMap(types).Keys
      && (forall k: nat :: k < |types| && types[k] == PdfTypeDetector.Digital ==>
            texts[k] == Utils.FormatPageMarker(k) + DigitalText(pdf, k))
      && (forall k: nat :: k < |types| && types[k] != PdfTypeDetector.Digital ==>
            texts[k] == Utils.FormatPageMarker(k) + ScannedText(ocr, k, language))
      && (forall k: nat :: k < |types| ==> Utils.ExtractPageNumberFromMarker(texts[k]) == Some(k))
  {
    var types := PdfTypeDetector.PageTypes(pdf, threshold);
    var texts := PageTexts(pdf, threshold, language, ocr);
    forall k: nat | k < |types| ensures Utils.ExtractPageNumberFromMarker(texts[k]) == Some(k) {
      var body := if types[k] == PdfTypeDetector.Digital then DigitalText(pdf, k) else ScannedText(ocr, k, language);
      Utils.MarkerRoundTrip(k, body);
    }
  }

  // ---------------------------------------------------------------------
  // get_combined_text
  // ---------------------------------------------------------------------

  predicate Ascending(s: seq<int>)
  {
    forall i, j :: 0 <= i < j < |s| ==> s[i] < s[j]
  }

  lemma {:induction false} MinExists(s: set<int>)
    requires s != {}
    ensures exists m :: m in s && forall x :: x in s ==> m <= x
    decreases |s|
  {
    assert exists x :: x in s by {
      if forall x :: x !in s { assert false; }
    }
    var x :| x in s;
    var rest := s - {x};
    if rest == {} {
      forall y | y in s ensures x <= y {
        assert y !in rest;
      }
    } else {
      MinExists(rest);
      var m :| m in rest && forall y :: y in rest ==> m <= y;
      var least := if x < m then x else m;
      forall y | y in s ensures least <= y {
        if y != x { assert y in rest; }
      }
      assert least in s;
    }
  }

  /** `min(s)` */
  function SetMin(s: set<int>): (m: int)
    requires s != {}
    ensures m in s && forall x :: x in s ==> m <= x
  {
    MinExists(s);
    var m :| m in s && forall x :: x in s ==> m <= x;
    m
  }

  /** `sorted(keys)` */
  function SortedKeys(s: set<int>): (r: seq<int>)
    ensures forall x :: x in r <==> x in s
    ensures Ascending(r)
    decreases |s|
  {
    if s == {} then []
    else
      var m := SetMin(s);
      var rest := SortedKeys(s - {m});
      assert forall i :: 0 <= i < |rest| ==> m < rest[i] by {
        forall i | 0 <= i < |rest| ensures m < rest[i] {
          assert rest[i] in s - {m};
        }
      }
      [m] + rest
  }

  /** The numbers lo..hi-1 sort into counting order. */
  lemma {:induction false} SortedInterval(s: set<int>, lo: int, hi: int)
    requires lo <= hi
    requires forall k :: k in s <==> lo <= k < hi
    ensures |SortedKeys(s)| == hi - lo
    ensures forall i :: 0 <= i < hi - lo ==> SortedKeys(s)[i] == lo + i
    decreases hi - lo
  {
    if lo == hi {
      assert forall k :: k !in s;
      assert s == {};
    } else {
      assert lo in s;
      assert SetMin(s) == lo;
      var rest := s - {lo};
      forall k ensures k in rest <==> lo + 1 <= k < hi {
      }
      SortedInterval(rest, lo + 1, hi);
      var r := SortedKeys(s);
      assert r == [lo] + SortedKeys(rest);
      forall i | 0 <= i < hi - lo ensures r[i] == lo + i {
        if i > 0 {
          assert r[i] == SortedKeys(rest)[i - 1];
        }
      }
    }
  }

  /** The page texts in ascending page order. */
  function InPageOrder(pageTexts: map<int, string>): (texts: seq<string>)
  {
    var keys := SortedKeys(pageTexts.Keys);
    seq(|keys|, i requires 0 <= i < |keys| => pageTexts[keys[i]])
  }

  /** `get_combined_text`: the page texts in ascending page order, joined
      by a blank line. */
  function CombinedText(pageTexts: map<int, string>): string
  {
    Join(InPageOrder(pageTexts), PageSeparator)
  }

  /** For the pages of one document, the combined text is the text of
      page 0, then page 1, and so on. */
  lemma InPageOrderOfDocument(pdf: Pdf, threshold: int, language: string, ocr: OcrEngine)
    ensures var types := PdfTypeDetector.PageTypes(pdf, threshold);
      var ordered := InPageOrder(PageTexts(pdf, threshold, language, ocr));
      && |ordered| == |types|
      && forall k :: 0 <= k < |types| ==> ordered[k] == PageText(pdf, types, k, language, ocr)
  {
    var types := PdfTypeDetector.PageTypes(pdf, threshold);
    InPageOrderOfPages(PageTexts(pdf, threshold, language, ocr), |types|);
  }

  /** When the pages are 0..n-1, page order is counting order. */
  lemma InPageOrderOfPages(texts: map<int, string>, n: nat)
    requires forall k :: k in texts <==> 0 <= k < n
    ensures |InPageOrder(texts)| == n
    ensures forall k :: 0 <= k < n ==> InPageOrder(texts)[k] == texts[k]
  {
    var keys := SortedKeys(texts.Keys);
    assert forall k :: k in texts.Keys <==> 0 <= k < n;
    SortedInterval(texts.Keys, 0, n);
    var r := InPageOrder(texts);
    forall k | 0 <= k < n ensures r[k] == texts[k] {
      assert keys[k] == k;
    }
  }

  /** It starts with the marker of page 0. */
  lemma CombinedTextStartsAtFirstPage(pdf: Pdf, threshold: int, language: string, ocr: OcrEngine)
    requires PdfTypeDetector.PageTypes(pdf, threshold) != []
    ensures Utils.ExtractPageNumberFromMarker(CombinedText(PageTexts(pdf, threshold, language, ocr))) == Some(0)
  {
    var types := PdfTypeDetector.PageTypes(pdf, threshold);
    var ordered := InPageOrder(PageTexts(pdf, threshold, language, ocr));
    InPageOrderOfDocument(pdf, threshold, language, ocr);
    var body := if types[0] == PdfTypeDetector.Digital then DigitalText(pdf, 0) else ScannedText(ocr, 0, language);
    assert ordered[0] == Utils.FormatPageMarker(0) + body;
    JoinKeepsFirstMarker(ordered, 0, body);
  }

  /** Joining parts keeps the page marker the first part starts with. */
  lemma JoinKeepsFirstMarker(parts: seq<string>, k: nat, body: string)
    requires parts != [] && parts[0] == Utils.FormatPageMarker(k) + body
    ensures Utils.ExtractPageNumberFromMarker(Join(parts, PageSeparator)) == Some(k)
  {
    var joined := Join(parts, PageSeparator);
    JoinStartsWithFirst(parts, PageSeparator);
    var rest := joined[|parts[0]|..];
    assert joined == Utils.FormatPageMarker(k) + (body + rest);
    Utils.MarkerRoundTrip(k, body + rest);
  }

  /** A join starts with its first part. */
  lemma JoinStartsWithFirst(parts: seq<string>, sep: string)
    requires parts != []
    ensures |Join(parts, sep)| >= |parts[0]|
    ensures Join(parts, sep) == parts[0] + Join(parts, sep)[|parts[0]|..]
  {
  }

  class OcrAgent {
    const pdfDetector: PdfTypeDetector.PdfTypeDetector

    /** `__init__`: a detector with the default threshold. */
    constructor()
      ensures pdfDetector.textThreshold == PdfTypeDetector.DefaultTextThreshold
    {
      pdfDetector := new PdfTypeDetector.PdfTypeDetector(PdfTypeDetector.DefaultTextThreshold);
    }

    /** `process_document`: the page texts filled page by page in the
        order of the page-type map, and, when `save_raw` is set, the
        content written to the raw output file. */
    method ProcessDocument(pdf: Pdf, language: string, saveRaw: bool, ocr: OcrEngine)
      returns (pageTexts: map<int, string>, raw: Option<string>)
      ensures pageTexts == PageTexts(pdf, pdfDetector.textThreshold, language, ocr)
      ensures raw == if saveRaw && pageTexts != map[] then Some(CombinedText(pageTexts)) else None
    {
      var pageTypes := pdfDetector.DetectDocumentType(pdf);
      ghost var types := PdfTypeDetector.PageTypes(pdf, pdfDetector.textThreshold);
      if pageTypes == map[] {
        assert 0 !in pageTypes;
        assert |types| == 0;
        return map[], None;
      }
      // the keys of `page_types` are 0, 1, ... in insertion order
      pageTexts := map[];
      var pageNum := 0;
      while pageNum in pageTypes
        invariant pageNum <= |types|
        invariant pageTexts == PageTextsBefore(pdf, types, pageNum, language, ocr)
        decreases |types| - pageNum
      {
        assert pageTypes[pageNum] == types[pageNum];
        var text;
        if pageTypes[pageNum] == PdfTypeDetector.Digital {
          text := DigitalText(pdf, pageNum);
        } else {
          text := ScannedText(ocr, pageNum, language);
        }
        PageTextsBeforeNext(pdf, types, pageNum, language, ocr);
        pageTexts := pageTexts[pageNum := Utils.FormatPageMarker(pageNum) + text];
        pageNum := pageNum + 1;
      }
      assert pageNum == |types|;
      assert 0 in pageTexts;
      raw := if saveRaw then Some(CombinedText(pageTexts)) else None;
    }
  }
}
