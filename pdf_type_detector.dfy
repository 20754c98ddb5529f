/** src/agents/pdf_type_detector.py: deciding, page by page, whether a PDF
    page carries its own text (digital) or must go through OCR (scanned, or
    mixed). PyMuPDF is replaced by what it reports of the document. */
module PdfTypeDetector {
  import opened Seqs
  import opened Text

  /** `PageType` */
  datatype PageType = Digital | Scanned | Mixed

  /** What PyMuPDF reports of one page: `page.get_text()` and the number of
      entries of `page.get_images(full=True)`. */
  datatype PageInfo = PageInfo(text: string, imageCount: nat)

  /** A PDF as PyMuPDF sees it: None when `fitz.open` raises; otherwise one
      entry per page, None for a page whose reading raises. */
  type Pdf = Option<seq<Option<PageInfo>>>

  /** `text_threshold`'s default. */
  const DefaultTextThreshold: int := 50
  /** Pages with images and fewer characters than this are mixed. */
  const MixedTextLimit: nat := 200

  /** `detect_page_type`: below the threshold a page is scanned; at or
      above it, a page with images and fewer than 200 characters is mixed
      and any other is digital; a page that cannot be read is scanned. */
  function DetectPageType(page: Option<PageInfo>, threshold: int): (t: PageType)
    ensures t == Scanned <==> page.None? || |Strip(page.value.text)| < threshold
    ensures t == Mixed <==>
              page.Some? && threshold <= |Strip(page.value.text)| < MixedTextLimit && page.value.imageCount > 0
    ensures t == Digital <==>
              page.Some? && |Strip(page.value.text)| >= threshold
              && (page.value.imageCount == 0 || |Strip(page.value.text)| >= MixedTextLimit)
  {
    if page.None? then Scanned
    else
      var textLength := |Strip(page.value.text)|;
      var hasImages := page.value.imageCount > 0;
      if textLength >= threshold then
        if hasImages && textLength < MixedTextLimit then Mixed else Digital
      else Scanned
  }

  /** A page without images is never mixed, and with a threshold of 200 or
      more no page is: the mixed band is empty. */
  lemma MixedNeedsImagesAndBand(page: Option<PageInfo>, threshold: int)
    ensures page.Some? && page.value.imageCount == 0 ==> DetectPageType(page, threshold) != Mixed
    ensures threshold >= MixedTextLimit ==> DetectPageType(page, threshold) != Mixed
  {
  }

  /** Raising the threshold never turns a scanned page digital or mixed. */
  lemma ScannedMonotone(page: Option<PageInfo>, t1: int, t2: int)
    requires t1 <= t2
    ensures DetectPageType(page, t1) == Scanned ==> DetectPageType(page, t2) == Scanned
  {
  }

  /** The page types of a document in page order; empty when it cannot be
      opened. Page k's type is at index k. */
  function PageTypes(pdf: Pdf, threshold: int): (types: seq<PageType>)
    ensures pdf.None? ==> types == []
    ensures pdf.Some? ==> |types| == |pdf.value|
    ensures pdf.Some? ==> forall k :: 0 <= k < |types| ==> types[k] == DetectPageType(pdf.value[k], threshold)
  {
    if pdf.None? then []
    else seq(|pdf.value|, k requires 0 <= k < |pdf.value| => DetectPageType(pdf.value[k], threshold))
  }

  /** The dictionary `detect_document_type` returns: page k maps to the
      type at index k. */
  function AsMap(types: seq<PageType>): (m: map<int, PageType>)
    ensures forall k :: k in m <==> 0 <= k < |types|
    ensures forall k :: 0 <= k < |types| ==> m[k] == types[k]
  {
    map k | 0 <= k < |types| :: types[k]
  }

  predicate IsOcrType(t: PageType) { t == Scanned || t == Mixed }

  /** `get_scanned_pages`: the scanned and mixed pages, in page order. */
  function ScannedPages(types: seq<PageType>): seq<nat>
  {
    Filter(Range(|types|), (k: nat) => k < |types| && IsOcrType(types[k]))
  }

  /** `get_digital_pages`: the digital pages, in page order. */
  function DigitalPages(types: seq<PageType>): seq<nat>
  {
    Filter(Range(|types|), (k: nat) => k < |types| && types[k] == Digital)
  }

  predicate Increasing(s: seq<nat>)
  {
    forall i, j :: 0 <= i < j < |s| ==> s[i] < s[j]
  }

  /** Filtering an increasing sequence keeps it increasing. */
  lemma {:induction false} FilterIncreasing(s: seq<nat>, p: nat -> bool)
    requires Increasing(s)
    ensures Increasing(Filter(s, p))
  {
    if s != [] {
      var t := s[1..];
      assert Increasing(t) by {
        forall i, j | 0 <= i < j < |t| ensures t[i] < t[j] {
          assert t[i] == s[i + 1] && t[j] == s[j + 1];
        }
      }
      FilterIncreasing(t, p);
      if p(s[0]) {
        var rt := Filter(t, p);
        assert Filter(s, p) == [s[0]] + rt;
        forall y | y in rt ensures s[0] < y {
          var m :| 0 <= m < |t| && t[m] == y;
          assert s[m + 1] == y;
        }
        ConsIncreasing(s[0], rt);
      }
    }
  }

  /** A head below every element of an increasing tail gives an increasing sequence. */
  lemma ConsIncreasing(h: nat, rt: seq<nat>)
    requires Increasing(rt)
    requires forall y :: y in rt ==> h < y
    ensures Increasing([h] + rt)
  {
    var r := [h] + rt;
    forall i, j | 0 <= i < j < |r| ensures r[i] < r[j] {
      assert r[j] == rt[j - 1] && rt[j - 1] in rt;
      if i == 0 { assert r[i] == h; } else { assert r[i] == rt[i - 1]; }
    }
  }

  /** What a filter keeps: exactly the elements that pass. */
  lemma FilterMembers(s: seq<nat>, p: nat -> bool)
    ensures forall x :: x in Filter(s, p) <==> x in s && p(x)
  {
    forall x | x in s && p(x) ensures x in Filter(s, p) {
      FilterKeeps(s, p, x);
    }
  }

  /** The scanned and the digital pages are two increasing lists with no
      page in common, and between them they hold every page; a mixed page
      counts as scanned. */
  lemma PagesPartition(types: seq<PageType>)
    ensures var sc, dg := ScannedPages(types), DigitalPages(types);
      && Increasing(sc) && Increasing(dg)
      && (forall k: nat :: k in sc <==> k < |types| && (types[k] == Scanned || types[k] == Mixed))
      && (forall k: nat :: k in dg <==> k < |types| && types[k] == Digital)
      && (forall k :: !(k in sc && k in dg))
      && (forall k: nat :: k < |types| ==> k in sc || k in dg)
      && |sc| + |dg| == |types|
  {
    var range := Range(|types|);
    var ocr := (k: nat) => k < |types| && IsOcrType(types[k]);
    var digital := (k: nat) => k < |types| && types[k] == Digital;
    FilterIncreasing(range, ocr);
    FilterIncreasing(range, digital);
    FilterMembers(range, ocr);
    FilterMembers(range, digital);
    forall k: nat | k < |types| ensures k in range { assert range[k] == k; }
    FilterCount(range, ocr, digital);
  }

  /** Two complementary filters split a sequence's length between them. */
  lemma {:induction false} FilterCount(s: seq<nat>, p: nat -> bool, q: nat -> bool)
    requires forall x :: x in s ==> (p(x) <==> !q(x))
    ensures |Filter(s, p)| + |Filter(s, q)| == |s|
  {
    if s != [] {
      assert forall x :: x in s[1..] ==> x in s;
      FilterCount(s[1..], p, q);
    }
  }

  class PdfTypeDetector {
    const textThreshold: int

    /** `__init__` */
    constructor(textThreshold: int)
      ensures this.textThreshold == textThreshold
    {
      this.textThreshold := textThreshold;
    }

    /** `detect_document_type`: the dictionary filled page by page; `{}`
        when the document cannot be opened. */
    method DetectDocumentType(pdf: Pdf) returns (pageTypes: map<int, PageType>)
      ensures pageTypes == AsMap(PageTypes(pdf, textThreshold))
    {
      if pdf.None? {
        return map[];
      }
      var pages := pdf.value;
      pageTypes := map[];
      for pageNum := 0 to |pages|
        invariant pageTypes == AsMap(PageTypes(pdf, textThreshold)[..pageNum])
      {
        pageTypes := pageTypes[pageNum := DetectPageType(pages[pageNum], textThreshold)];
      }
      assert PageTypes(pdf, textThreshold)[..|pages|] == PageTypes(pdf, textThreshold);
    }
  }
}
