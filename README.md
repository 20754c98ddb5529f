# RAGging in Dafny

A model of the core of RAGging, a pipeline that answers questions over a
collection of multilingual PDF documents. A PDF dropped into the incoming
folder becomes an ingestion job. Each page is classified as digital,
scanned or mixed. Scanned and mixed pages go through OCR, and the page
text is marked with `[PAGE n]` markers. The text is then cleaned by a
language model, with a rule-based fallback. It is cut into token-bounded
chunks, embedded and stored with its metadata. A question is handled in
several steps:
- its language, page and document hints become a metadata filter;
- it is optionally decomposed into sub-questions;
- each sub-question is retrieved by dense search, by BM25 keyword search,
  or by both, fused by reciprocal rank or by weighted scores;
- the results are merged first come, first kept, and optionally reranked;
- the prompt for the answering model is assembled from the retrieved chunks
  and the last chat messages.
An evaluation agent scores the retrieval and the answer.

Each source file of the core is one module, in its own `.dfy` file:
- `Utils`, `Config`, `Storage`, `Ingestion`;
- `PdfTypeDetector`, `Ocr`, `Cleanup`, `Chunking`, `Embedding`;
- `Retriever`, `Reranker`, `Decomposition`, `MetadataFilters`, `Rag`;
- `Evaluation`.

Three library modules stand for the Python built-ins the core leans on:
- `Seqs`: slicing, filtering, flattening, dedup by key and a stable
  descending sort;
- `Text`: `str.strip`, `split`, `join`, `find`, `lower`/`upper`, and
  `int`/`str` conversion;
- `Patterns`: the few regular expressions used, written as match
  predicates.

Code that changes state in place is modelled as imperative Dafny:
- the storage tables (which hold the ingestion queue), the retriever's
  lazily built BM25 index and the Gemini key rotator are classes with
  `modifies` clauses;
- the retrieval, packing and batching loops are methods with loop
  invariants;
- each method is proved against a function that specifies its result.

The language models, the embedding service, the vector store, BM25
scoring, the tokenizer, PyMuPDF and Tesseract are parameters of the model:
what they return is an input, and a call that raises is an input saying so.

## Model

| member | source | states |
|---|---|---|
| Utils.GenerateDocId | src/common/utils.py:23-26 | the id starts with the language and "_", and ends with "_" and the first 8 characters of the hash |
| Utils.DetectLanguageFromPath | src/common/utils.py:29-35 | a language exactly when the parent directory is en, zh, hi, bn or ur, and then that name |
| Utils.LanguageToTesseractCode | src/common/utils.py:170-179 | any other language gives "eng"; the code is always one of the five Tesseract codes |
| Utils.TesseractCodesOfSupportedLanguages | src/common/utils.py:172-178 | en, zh, hi, bn, ur map to eng, chi_sim, hin, ben, urd |
| Utils.IsCjkChar | src/common/utils.py:38-53 | true exactly for a one-character string whose code point lies in one of the eight ranges; the empty string is not CJK |
| Utils.CountCjkChars | src/common/utils.py:56-58 | the count is at most the length, 0 exactly when no character is CJK, and the length exactly when all are |
| Utils.CountCjkAppend | src/common/utils.py:56-58 | the count of a concatenation is the sum of the counts |
| Utils.ShareAtLeast | src/common/utils.py:69 | `count / total >= threshold` holds exactly when `count >= threshold * total` |
| Utils.IsCjkText | src/common/utils.py:61-69 | true exactly when the stripped text is non-empty and the CJK count of the whole text is at least threshold times the stripped length |
| Utils.BlankIsNotCjk | src/common/utils.py:63-68 | whitespace-only text is never CJK text, for any threshold |
| Utils.CapRunsBounded | src/common/utils.py:75-77 | after `re.sub(' +', ' ')` or `re.sub('\n\n+', '\n\n')` no run of that character is longer than 1 or 2 |
| Utils.CapRunsOfBounded | src/common/utils.py:75-77 | the substitution leaves a string whose runs are already short unchanged |
| Utils.CapRunsKeepsOther | src/common/utils.py:75-77 | collapsing newlines does not lengthen runs of spaces |
| Utils.RunsAtMostStrip | src/common/utils.py:78 | `strip()` does not lengthen any run |
| Utils.NormalizeWhitespaceNormalizes | src/common/utils.py:72-78 | the result is stripped, has no run of two spaces and no run of three newlines |
| Utils.NormalizeWhitespaceFacts | src/common/utils.py:72-78 | no double space, no triple newline, no surrounding whitespace |
| Utils.NormalizeWhitespaceOfNormalized | src/common/utils.py:72-78 | a normalized string is a fixed point |
| Utils.NormalizeWhitespaceIdempotent | src/common/utils.py:72-78 | normalizing twice is normalizing once |
| Utils.NormalizeWhitespace | src/common/utils.py:72-78 | specification function of `normalize_whitespace`, without a contract of its own; its properties are in `NormalizeWhitespaceNormalizes`, `NormalizeWhitespaceFacts`, `NormalizeWhitespaceOfNormalized` and `NormalizeWhitespaceIdempotent` |
| Utils.ReplaceChar | src/common/utils.py:88 | same length; each occurrence of the character replaced, every other character kept |
| Utils.RemovePipesAndBackslashes | src/common/utils.py:86 | no '\|' and no '\\' remain, and the text does not grow |
| Utils.CleanOcrText | src/common/utils.py:81-89 | the cleaned text contains no '\|' and no '\\' (so the replace of line 88 never fires) |
| Utils.SplitWhere | src/common/utils.py:142 | at least one piece, none containing a Chinese sentence end |
| Utils.SplitRuns | src/common/utils.py:145 | at least one piece, none containing '.', '!' or '?' |
| Utils.StripNonBlank | src/common/utils.py:147 | at most one sentence per piece, each non-empty and stripped |
| Utils.SentencesAreClean | src/common/utils.py:138-147 | every sentence is non-empty, stripped and free of the language's sentence-ending punctuation |
| Utils.NoSentenceEndIsOneSentence | src/common/utils.py:145-147 | text with content and no sentence end is one sentence, itself stripped |
| Utils.SplitIntoSentences | src/common/utils.py:138-147 | specification function of `split_into_sentences`, without a contract of its own; its properties are in `SentencesAreClean` and `NoSentenceEndIsOneSentence` |
| Utils.TruncateText | src/common/utils.py:150-154 | unchanged when short enough; otherwise the first max - len(suffix) characters and the suffix, exactly max_length long when max_length >= len(suffix) |
| Utils.TruncateShortMaximum | src/common/utils.py:154 | a maximum below the suffix length slices from the end: "abcdef" with max 2 gives "abcde..." |
| Utils.DigitRun | src/common/utils.py:164 | the `\d+` run from a position: all digits, and maximal |
| Utils.FindMarkerFromFacts | src/common/utils.py:164 | `re.search` finds nothing exactly when no position holds a "[PAGE n]" marker, else the number of the leftmost one |
| Utils.ExtractPageNumberFacts | src/common/utils.py:162-167 | None exactly when the text has no marker; otherwise the number of its first marker |
| Utils.MarkerRoundTrip | src/common/utils.py:157-167 | the marker of page n, followed by any text, reads back as n |
| Utils.FormatPageMarker | src/common/utils.py:157-159 | specification function of `format_page_marker`, without a contract of its own; its properties are in `MarkerRoundTrip`, `Ocr.PageTextsFacts` and `Ocr.JoinKeepsFirstMarker` |
| Utils.ExtractPageNumberFromMarker | src/common/utils.py:162-167 | specification function of `extract_page_number_from_marker`, without a contract of its own; its properties are in `ExtractPageNumberFacts` and `MarkerRoundTrip` |
| Utils.ChunkList | src/common/utils.py:182-184 | fails (as `range` raises) exactly for a zero size |
| Utils.Pieces | src/common/utils.py:184 | every piece is non-empty and at most size long, and all but the last are exactly size long |
| Utils.PiecesFacts | src/common/utils.py:182-184 | the pieces concatenate back to the list, and there are ceil(len / size) of them |
| Config.ParseGeminiKeys | src/common/config.py:80-86 | a string passes through unchanged, a falsy non-string becomes "", a truthy non-string is kept |
| Config.GetGeminiKeys | src/common/config.py:88-92 | [] for the empty string; every key stripped and non-empty |
| Config.GetGeminiKeysBounds | src/common/config.py:92 | every key is free of commas, and there are at most (commas + 1) keys |
| Config.GetGeminiKeysOfJoin | src/common/config.py:92 | stripped, comma-free, non-empty keys joined by "," are read back in the same order |
| Ingestion.ProcessNewFile | src/agents/ingestion_agent.py:51-105 | a missing file or an unsupported parent directory queues nothing; for a file in a language directory, an id already in the table gives AlreadyQueued, a failed copy gives CopyFailed, and otherwise the outcome is Queued with exactly one new pending job for `<doc_id>.pdf` in the processing directory, carrying the original name and path in its metadata; no other table changes |
| Ingestion.GetNextJob | src/agents/ingestion_agent.py:143-151 | None and no change when nothing is pending; otherwise the oldest pending row, returned as read, while the table marks it processing |
| Ingestion.NextJobBecomesProcessing | src/agents/ingestion_agent.py:143-151 | after the call the returned job's stored status is processing |
| Ingestion.MarkJobCompleted | src/agents/ingestion_agent.py:153-156 | the job's row becomes completed with no error message; nothing else changes |
| Ingestion.MarkJobFailed | src/agents/ingestion_agent.py:158-161 | the job's row becomes failed with the message; nothing else changes |
| Ingestion.MarkOutcomeRecorded | src/agents/ingestion_agent.py:153-161 | a failed job keeps the message; a completed one has none |
| Storage.StatusName | src/common/storage.py:15-20 | each status is stored as one of "pending", "processing", "completed", "failed" |
| Storage.StatusNamesDistinct | src/common/storage.py:15-20 | two statuses have the same stored name exactly when they are the same status |
| Storage.LimitRows | src/common/storage.py:99 | `LIMIT n` keeps the first min(n, rows) rows; a negative n keeps all |
| Storage.FindJob | src/common/storage.py:123-126 | a row exactly when some job has that doc_id, and then a row of the table with that doc_id |
| Storage.PendingJobsFacts | src/common/storage.py:94-103 | only pending jobs of the table, and the first `min(limit, pending)` of them in insertion order (all of them for a negative limit) |
| Storage.PendingJobsHead | src/common/storage.py:99 | with limit 1, the result is the oldest pending job |
| Storage.NoPendingNoJobs | src/common/storage.py:99 | with no pending job the result is empty |
| Storage.PendingJobs | src/common/storage.py:94-103 | specification function of `get_pending_jobs`, without a contract of its own; its properties are in `PendingJobsFacts`, `PendingJobsHead` and `NoPendingNoJobs`, and `SqliteStorage.GetPendingJobs` is proved against it |
| Storage.UpdateStatus | src/common/storage.py:108-115 | same length; the rows with that doc_id get the new status, message and time; every other row is unchanged |
| Storage.UpdateStatusFacts | src/common/storage.py:105-116 | doc ids stay unique, row ids and doc ids are unchanged, a later lookup sees the new status and message, and an unknown doc_id changes nothing |
| Storage.FindJobUnique | src/common/storage.py:118-126 | with unique doc ids the lookup returns the one row holding the id |
| Storage.HasSession | src/common/storage.py:54 | true exactly when some session row has the id |
| Storage.InsertSession | src/common/storage.py:133 | INSERT OR IGNORE: no change when the session exists, else one new row; afterwards the session exists |
| Storage.CreateSessionIdempotent | src/common/storage.py:129-136 | creating a session twice equals creating it once, keeping the first metadata |
| Storage.InsertSessionKeepsUnique | src/common/storage.py:54 | session ids stay unique |
| Storage.SessionMessagesFacts | src/common/storage.py:150-159 | only that session's messages, a prefix of them in insertion order, all of them when `limit` is None or 0, else min(limit, count) |
| Storage.SessionMessages | src/common/storage.py:150-159 | specification function of `get_session_messages`, without a contract of its own; its properties are in `SessionMessagesFacts`, and `SqliteStorage.GetSessionMessages` is proved against it |
| Storage.ClearSessionFacts | src/common/storage.py:172-179 | the session has no messages afterwards, and every other session's messages are the same, in the same order |
| Storage.ClearSessionRows | src/common/storage.py:172-179 | specification function of `clear_session`'s DELETE, without a contract of its own; its properties are in `ClearSessionFacts`, and `SqliteStorage.ClearSession` is proved against it |
| Storage.RecentSessions | src/common/storage.py:161-170 | the newest `min(limit, n)` sessions (all n for a negative limit), newest first |
| Storage.SqliteStorage.constructor | src/common/storage.py:32-78 | three empty tables |
| Storage.SqliteStorage.AddJob | src/common/storage.py:81-92 | a taken doc_id fails and changes nothing; otherwise one pending row appended with the next row id, which is returned |
| Storage.SqliteStorage.GetPendingJobs | src/common/storage.py:94-103 | the pending rows, oldest first, limited |
| Storage.SqliteStorage.UpdateJobStatus | src/common/storage.py:105-116 | the table becomes the update of the old table; the other tables are unchanged |
| Storage.SqliteStorage.GetJob | src/common/storage.py:118-126 | the lookup of the doc_id |
| Storage.SqliteStorage.CreateSession | src/common/storage.py:129-136 | the INSERT OR IGNORE of the session; the other tables are unchanged |
| Storage.SqliteStorage.AddMessage | src/common/storage.py:138-148 | one message appended with the next id, whether or not the session row exists |
| Storage.SqliteStorage.GetSessionMessages | src/common/storage.py:150-159 | the session's messages, limited only when `limit` is truthy |
| Storage.SqliteStorage.GetRecentSessions | src/common/storage.py:161-170 | the recent sessions |
| Storage.SqliteStorage.ClearSession | src/common/storage.py:172-179 | exactly that session's messages deleted; sessions and jobs unchanged |
| PdfTypeDetector.DetectPageType | src/agents/pdf_type_detector.py:44-69 | a page is scanned exactly when it cannot be read or its stripped text is shorter than the threshold; mixed exactly when the text reaches the threshold, is under 200 characters and the page has images; digital otherwise |
| PdfTypeDetector.MixedNeedsImagesAndBand | src/agents/pdf_type_detector.py:59-62 | a page without images is never mixed, and with a threshold of 200 or more no page is mixed |
| PdfTypeDetector.ScannedMonotone | src/agents/pdf_type_detector.py:59-64 | raising the threshold never turns a scanned page into a digital or mixed one |
| PdfTypeDetector.PageTypes | src/agents/pdf_type_detector.py:81-99 | no types when the document cannot be opened; otherwise one type per page, page k's type at index k |
| PdfTypeDetector.AsMap | src/agents/pdf_type_detector.py:86-88 | the dictionary's keys are exactly the page numbers 0..n-1, each mapped to its page's type |
| PdfTypeDetector.PagesPartition | src/agents/pdf_type_detector.py:101-131 | the scanned pages (scanned or mixed) and the digital pages are increasing, disjoint, hold every page between them, and hold exactly the pages of their types |
| PdfTypeDetector.ScannedPages | src/agents/pdf_type_detector.py:101-115 | specification function of `get_scanned_pages`, without a contract of its own; its properties are in `PagesPartition` |
| PdfTypeDetector.DigitalPages | src/agents/pdf_type_detector.py:117-131 | specification function of `get_digital_pages`, without a contract of its own; its properties are in `PagesPartition` |
| PdfTypeDetector.PdfTypeDetector.constructor | src/agents/pdf_type_detector.py:24-31 | the detector keeps the given text threshold |
| PdfTypeDetector.PdfTypeDetector.DetectDocumentType | src/agents/pdf_type_detector.py:71-99 | the loop fills the dictionary with the type of every page, and `{}` when the document cannot be opened |
| Ocr.DigitalText | src/agents/ocr_agent.py:34-53 | the text read from a digital page is stripped, and "" when the page cannot be read |
| Ocr.ScannedText | src/agents/ocr_agent.py:55-94 | the text Tesseract returns for a scanned page is stripped, and "" when conversion or OCR fails |
| Ocr.PageTextsBeforeNext | src/agents/ocr_agent.py:125-136 | one loop step adds the marked text of the next page and changes no other page |
| Ocr.PageTextsFacts | src/agents/ocr_agent.py:115-144 | the result has exactly the pages of the page-type map (none when detection fails); digital pages are read directly, all others through OCR; each text starts with its own page marker, which reads back as that page number |
| Ocr.PageTexts | src/agents/ocr_agent.py:115-144 | specification function of the page loop of `process_document`, without a contract of its own; its properties are in `PageTextsFacts`, `PageTextsBeforeNext` and `InPageOrderOfDocument`, and `OcrAgent.ProcessDocument` is proved against it |
| Ocr.SetMin | src/agents/ocr_agent.py:165 | the least key of a non-empty key set |
| Ocr.SortedKeys | src/agents/ocr_agent.py:165 | `sorted(keys)` holds exactly the keys, in strictly ascending order |
| Ocr.SortedInterval | src/agents/ocr_agent.py:165 | the keys lo..hi-1 sort into counting order |
| Ocr.InPageOrderOfPages | src/agents/ocr_agent.py:163-165 | for pages 0..n-1 the combined text lists page 0, then page 1, and so on |
| Ocr.CombinedText | src/agents/ocr_agent.py:163-165 | specification function of `get_combined_text`, without a contract of its own; its properties are in `InPageOrderOfPages`, `InPageOrderOfDocument` and `CombinedTextStartsAtFirstPage` |
| Ocr.InPageOrderOfDocument | src/agents/ocr_agent.py:153 | the raw output lists the marked text of every page of the document in page order |
| Ocr.CombinedTextStartsAtFirstPage | src/agents/ocr_agent.py:163-165 | the combined text of a document with pages starts with the marker of page 0 |
| Ocr.JoinKeepsFirstMarker | src/agents/ocr_agent.py:165 | joining with a blank line keeps the page marker the first part starts with |
| Ocr.OcrAgent.constructor | src/agents/ocr_agent.py:26-28 | the agent's detector uses the default threshold of 50 |
| Ocr.OcrAgent.ProcessDocument | src/agents/ocr_agent.py:96-161 | the loop builds exactly the page texts above; `{}` when no page type was detected; when `save_raw` is set the raw output written is the combined text in page order |
| Cleanup.SplitCamel | src/agents/cleanup_agent.py:199 | the substitution keeps the first character and maps the empty text to itself |
| Cleanup.SplitCamelNoCamel | src/agents/cleanup_agent.py:199 | after the substitution no lower-case letter is directly followed by an upper-case one |
| Cleanup.SplitCamelChars | src/agents/cleanup_agent.py:199 | the substitution brings in no character other than the spaces it inserts |
| Cleanup.SplitCamelKeepsRuns | src/agents/cleanup_agent.py:194-199 | the substitution lengthens no run of spaces or newlines left by the two earlier steps |
| Cleanup.SplitCamelOfClean | src/agents/cleanup_agent.py:199 | a text with no lower-upper pair is left unchanged |
| Cleanup.ReplaceKeepsRuns | src/agents/cleanup_agent.py:198 | replacing '\|' by 'I' leaves runs of spaces and newlines as they were |
| Cleanup.BasicCleanupIsClean | src/agents/cleanup_agent.py:191-201 | the result of the basic cleanup is in the cleaned form: no space run, newline runs of at most two, no lower-upper pair, stripped |
| Cleanup.BasicCleanupFacts | src/agents/cleanup_agent.py:191-201 | the basic cleanup leaves no two spaces in a row, no three newlines in a row, no '\|', no lower-case letter before an upper-case one, and no surrounding whitespace |
| Cleanup.BasicCleanup | src/agents/cleanup_agent.py:191-201 | specification function of `_basic_cleanup`, without a contract of its own; its properties are in `BasicCleanupIsClean`, `BasicCleanupFacts` and `BasicCleanupIdempotent` |
| Cleanup.BasicCleanupIdempotent | src/agents/cleanup_agent.py:191-201 | cleaning an already cleaned text changes nothing |
| Cleanup.CleanupSmall | src/agents/cleanup_agent.py:148-165 | the result of the fallback chain is always stripped |
| Cleanup.CleanupSmallFallbacks | src/agents/cleanup_agent.py:57-165 | the primary model's non-blank reply wins; the fallback model's non-blank reply is used only when the primary gave none; the basic cleanup only when neither did; an empty result means the basic cleanup was empty |
| Cleanup.MarkerHit | src/agents/cleanup_agent.py:170 | the page pattern matches at a position exactly when a "[PAGE n]" marker starts there |
| Cleanup.Parts | src/agents/cleanup_agent.py:170-172 | the split with its markers kept alternates pages and markers: an odd number of parts |
| Cleanup.Unzip | src/agents/cleanup_agent.py:171-172 | there is one page more than there are markers |
| Cleanup.PageOutcome | src/agents/cleanup_agent.py:176-181 | a page is skipped exactly when it is blank, and does not return exactly when its stripped text is over 3000 characters |
| Cleanup.PageOutcomes | src/agents/cleanup_agent.py:176-187 | one outcome per page, in page order |
| Cleanup.PagePiecesNoneIff | src/agents/cleanup_agent.py:176-189 | the page loop fails to return exactly when one of its pages is too long |
| Cleanup.CleanupLarge | src/agents/cleanup_agent.py:167-189 | specification function of `_cleanup_large_text`, without a contract of its own; its properties are in `PagePiecesNoneIff`, `PagePiecesKeepMarkers`, `LongPageRecursesOnItself` and `LongPageLoops` |
| Cleanup.CleanupText | src/agents/cleanup_agent.py:131-165 | specification function of `cleanup_text`, without a contract of its own; `CleanupAgent.CleanupTextMethod` is proved against it |
| Cleanup.PagePiecesKeepMarkers | src/agents/cleanup_agent.py:183-187 | when every page is kept, cleaned page k is piece 2k and the marker before it is piece 2k-1: markers come back in place |
| Cleanup.BlankPageDropsMarker | src/agents/cleanup_agent.py:177-178 | a blank page is skipped together with the marker before it |
| Cleanup.LongPageRecursesOnItself | src/agents/cleanup_agent.py:143-181 | a stripped text of more than 3000 characters without a marker splits into the one page that is the text itself, so `cleanup_text` is called again on exactly its own input |
| Cleanup.SplitPiecesNoMarker | src/agents/cleanup_agent.py:170-171 | the pieces `re.split` leaves between page markers hold no "[PAGE n]" marker of their own |
| Cleanup.PagesHaveNoMarker | src/agents/cleanup_agent.py:170-181 | no page of the split holds a marker, and neither does its stripped text |
| Cleanup.LongPageLoops | src/agents/cleanup_agent.py:170-181 | a page the loop hands back to `cleanup_text` (non-blank, over 3000 characters once stripped) splits into the one page it already is, with no marker, so the call repeats itself |
| Cleanup.CleanupAgent.constructor | src/agents/cleanup_agent.py:21-24 | the primary model is the configured name without its provider prefix; the fallback model is taken as configured |
| Cleanup.CleanupAgent.CleanupTextMethod | src/agents/cleanup_agent.py:131-165 | `cleanup_text` returns what the specification function gives: the page-wise cleanup above 3000 characters, the fallback chain otherwise |
| Cleanup.CleanupAgent.CleanupLargeText | src/agents/cleanup_agent.py:167-189 | the page loop returns the kept pieces joined by blank lines, or does not return when a page is too long |
| Chunking.ParagraphHit | src/agents/chunking_agent.py:126-129 | the pattern `\n\n+` matches at a position exactly when a blank line starts there |
| Chunking.Paragraphs | src/agents/chunking_agent.py:126-129 | a split always yields at least one paragraph |
| Chunking.ParagraphsFacts | src/agents/chunking_agent.py:126-131 | there is more than one paragraph exactly when the text has a blank line, and otherwise the only paragraph is the text itself |
| Chunking.SentenceParts | src/agents/chunking_agent.py:76-87 | the split with its sentence ends captured has an odd number of parts |
| Chunking.RecombineFrom | src/agents/chunking_agent.py:79-83 | from an even index, the recombined parts are the pair there followed by the recombined rest |
| Chunking.RecombineKeepsText | src/agents/chunking_agent.py:79-93 | recombining every part loses no text |
| Chunking.RecombineAsWrittenDropsLast | src/agents/chunking_agent.py:79-93 | the loop as written, stopping at `len(sentences) - 1`, loses exactly the last part: the text after the last sentence end |
| Chunking.SentencesKeepText | src/agents/chunking_agent.py:72-94 | before blank sentences are dropped, the sentences concatenate back to the text |
| Chunking.TwoSentenceParts | src/agents/chunking_agent.py:76 | a text "a。b" whose last sentence b has no closing mark splits into a, the mark and b |
| Chunking.TrailingSentenceLost | src/agents/chunking_agent.py:79-84 | for every visible a and b without marks, the splitter as written turns "a。b" into ["a。"] alone, while recombining every part gives ["a。", b] |
| Chunking.RecombineTwo | src/agents/chunking_agent.py:79-83 | on three parts, recombining every part keeps the third, the loop as written drops it |
| Chunking.Sentences | src/agents/chunking_agent.py:72-94 | specification function of `split_by_sentences` with every part recombined (the corrected half of the Findings row), without a contract of its own; its properties are in `TrailingSentenceLost` and `ChunkTextsDiverges`, and `ChunkingAgent.SplitBySentences` is proved against it |
| Chunking.SentencesAsWritten | src/agents/chunking_agent.py:72-94 | specification function of `split_by_sentences` as written, which never recombines the last part (the as-written half of the Findings row), without a contract of its own; its properties are in `TrailingSentenceLost` and `ChunkTextsAsWrittenDiverges` |
| Chunking.PackStepKeeps | src/agents/chunking_agent.py:136-158 | one pass of the packing loop keeps the loop's invariant: chunks are non-empty and no more than the items seen |
| Chunking.PackAllFacts | src/agents/chunking_agent.py:133-162 | after the whole loop the invariant holds for the stripped non-blank items |
| Chunking.FitOrSingleStep | src/agents/chunking_agent.py:142-158 | growing the open chunk by a fitting text, or closing it and opening a new one with the item, keeps every chunk either within the limit or a single item |
| Chunking.JoinStep | src/agents/chunking_agent.py:142-158 | extending the open chunk or closing it keeps the joined chunks equal to the joined items seen |
| Chunking.PackStepNoOverlap | src/agents/chunking_agent.py:136-158 | without overlap one pass of the loop keeps the joined chunks equal to the joined items and every chunk fitting or single |
| Chunking.PackAllNoOverlap | src/agents/chunking_agent.py:133-162 | without overlap the whole loop keeps that invariant |
| Chunking.PackedFacts | src/agents/chunking_agent.py:131-197 | the packed chunks are none exactly when no item has content, never more than the items with content, and none is empty |
| Chunking.PackedNoOverlap | src/agents/chunking_agent.py:131-197 | without overlap packing only inserts separators: the chunks joined by the separator are the stripped items joined by it, and a chunk over the limit is a single item |
| Chunking.PackedGroups | src/agents/chunking_agent.py:131-197 | for any overlap the chunks split the items with content, in order, into consecutive non-empty groups, one per chunk: the first chunk is its group joined by the separator; every later chunk is the overlap text (the decoded last `overlap` tokens) of the chunk before it, the separator and its group (without the overlap text when the overlap is not positive); a chunk that took more than one item fits the limit |
| Chunking.PackedOverlapPrefix | src/agents/chunking_agent.py:131-197 | with a positive overlap every chunk after the first starts with the overlap text of the chunk before it and the separator |
| Chunking.Packed | src/agents/chunking_agent.py:131-197 | specification function of the packing loop of `chunk_text_recursive`, without a contract of its own; its properties are in `PackedFacts`, `PackedNoOverlap`, `PackedGroups` and `PackedOverlapPrefix`, and `ChunkingAgent.PackChunks` is proved against it |
| Chunking.WindowStarts | src/agents/chunking_agent.py:203-208 | the values `i` takes in the token loop all lie between its start and the number of tokens |
| Chunking.WindowTextsStep | src/agents/chunking_agent.py:204-208 | one more decoded window appended leaves the rest of the windows to do |
| Chunking.WindowTextsDecoded | src/agents/chunking_agent.py:200-210 | the chunk texts of the last resort are the token windows, each decoded |
| Chunking.WindowStartsCover | src/agents/chunking_agent.py:203-208 | every token position lies within one step of a window start |
| Chunking.TokenWindowsBounded | src/agents/chunking_agent.py:205 | each window is the slice of up to `max_tokens` tokens at its start and holds between one and `max_tokens` tokens |
| Chunking.WindowAt | src/agents/chunking_agent.py:205 | the window from a start holds each token less than `max_tokens` past it, at its offset |
| Chunking.TokenCovered | src/agents/chunking_agent.py:203-208 | a token lies in the window that starts at most one step before it |
| Chunking.TokenWindowsCover | src/agents/chunking_agent.py:199-210 | when the overlap is not negative every token appears in some window, at its offset from the window's start |
| Chunking.WindowsTileFrom | src/agents/chunking_agent.py:203-208 | without overlap the windows from a start concatenate to the tokens from there |
| Chunking.TokenWindowsTile | src/agents/chunking_agent.py:199-210 | without overlap the windows concatenate back to the tokens |
| Chunking.TokenChunks | src/agents/chunking_agent.py:199-210 | specification function of the token-window fallback, without a contract of its own: no result for a non-positive step over non-empty tokens; its properties are in `WindowTextsDecoded`, `TokenWindowsCover` and `TokenWindowsTile`, and `ChunkingAgent.SplitByTokens` is proved against it |
| Chunking.ChunkTextsDiverges | src/agents/chunking_agent.py:96-210 | with the corrected sentence split, chunking fails to return exactly when the text is over the limit, has no blank line and at most one sentence, and `max_tokens - overlap_tokens` is not positive |
| Chunking.ChunkTextsOverDiverges | src/agents/chunking_agent.py:96-210 | for any sentence split, chunking fails to return exactly when the text is over the limit, has no blank line and at most one sentence, and the token step is not positive |
| Chunking.ChunkTextsAsWrittenDiverges | src/agents/chunking_agent.py:79-210 | as the source is written, the same holds with the sentences of `split_by_sentences` as written, which drop the last part of the split |
| Chunking.TrailingSentenceChangesChunking | src/agents/chunking_agent.py:79-210 | for "a。b" over the limit, without a blank line and with a non-positive token step, `chunk_text_recursive` as written never returns while the corrected split packs the two sentences |
| Chunking.ChunkTexts | src/agents/chunking_agent.py:96-210 | specification function of `chunk_text_recursive` with the corrected sentence split, without a contract of its own; `ChunkingAgent.ChunkTextRecursive` is proved against it |
| Chunking.ChunkTextsAsWritten | src/agents/chunking_agent.py:96-210 | specification function of `chunk_text_recursive` with `split_by_sentences` as written, without a contract of its own; its divergence is in `ChunkTextsAsWrittenDiverges` |
| Chunking.Pad4 | src/agents/chunking_agent.py:252 | `{i:04d}` is a string of at least four decimal digits |
| Chunking.Pad4Value | src/agents/chunking_agent.py:252 | the padded digits read back as the chunk index |
| Chunking.ChunkIdInjective | src/agents/chunking_agent.py:252 | two indexes give the same chunk id of a document only when they are equal |
| Chunking.ChunkId | src/agents/chunking_agent.py:252 | specification function of `f"{doc_id}_chunk_{i:04d}"`, without a contract of its own; its properties are in `ChunkIdInjective` and `ChunkIdsDistinct` |
| Chunking.PageNumberOfMarker | src/agents/chunking_agent.py:212-217 | a chunk that starts with the marker of page n is on page n |
| Chunking.PageNumberWithoutMarker | src/agents/chunking_agent.py:212-217 | a chunk without a marker is on page 0 |
| Chunking.ExtractPageNumber | src/agents/chunking_agent.py:212-217 | specification function of `extract_page_number`, without a contract of its own; its properties are in `PageNumberOfMarker` and `PageNumberWithoutMarker` |
| Chunking.ChunkAtOffset | src/agents/chunking_agent.py:245-271 | the running character offset is the length of the texts before the chunk |
| Chunking.ChunksOfSnoc | src/agents/chunking_agent.py:247-270 | appending the next chunk object keeps every chunk at its index |
| Chunking.ChunkIdsDistinct | src/agents/chunking_agent.py:247-270 | the chunks of a document have distinct ids |
| Chunking.ChunkSpanEnds | src/agents/chunking_agent.py:260-271 | a chunk's span runs from the length of the texts before it to the length up to and including it |
| Chunking.ChunkSpanFollows | src/agents/chunking_agent.py:260-271 | each chunk starts where the one before it ends |
| Chunking.ChunkSpansTile | src/agents/chunking_agent.py:245-271 | the spans start at 0, follow each other without gap, are each as long as their text and end at the total length of the texts |
| Chunking.ChunkMetadataKeys | src/agents/chunking_agent.py:262-267 | the chunk's metadata sets `chunk_index`, `total_chunks` and `token_count` and keeps every other caller key |
| Chunking.ChunkMetadataFacts | src/agents/chunking_agent.py:262-267 | every chunk's metadata gives its own index, the number of chunks and its token count, and keeps every other caller key |
| Chunking.ChunkMetadata | src/agents/chunking_agent.py:262-267 | specification function of a chunk's metadata, without a contract of its own; its properties are in `ChunkMetadataKeys` and `ChunkMetadataFacts` |
| Chunking.ChunkingAgent.constructor | src/agents/chunking_agent.py:58-66 | an absent or zero size or overlap takes the configured one |
| Chunking.ChunkingAgent.SplitBySentences | src/agents/chunking_agent.py:72-94 | the loop gives the sentences of the specification, with every part recombined (the corrected loop) |
| Chunking.ChunkingAgent.PackChunks | src/agents/chunking_agent.py:131-197 | the packing loop, for paragraphs and for sentences, gives the packed chunks of the specification |
| Chunking.ChunkingAgent.PackItem | src/agents/chunking_agent.py:136-158 | one pass of the loop body is one packing step |
| Chunking.ChunkingAgent.SplitByTokens | src/agents/chunking_agent.py:199-210 | the last resort gives the decoded token windows, and no result when the step is not positive and there are tokens |
| Chunking.ChunkingAgent.DecodeWindows | src/agents/chunking_agent.py:203-208 | the `while` loop decodes each window, in order |
| Chunking.ChunkingAgent.ChunkTextRecursive | src/agents/chunking_agent.py:96-210 | the chunk texts of the specification with the corrected sentence split, with absent or zero limits taken from the agent |
| Chunking.ChunkingAgent.ChunkDocument | src/agents/chunking_agent.py:219-275 | no result exactly when chunking (with the corrected sentence split) does not return; otherwise one chunk object per chunk text with its id, page, span and metadata |
| Chunking.ChunkingAgent.BuildChunks | src/agents/chunking_agent.py:244-271 | the loop builds the chunk object for each text at its index |
| Embedding.NextPosition | src/agents/embedding_agent.py:24-37 | one `next` of the key cycle stays among the keys |
| Embedding.Advance | src/agents/embedding_agent.py:24-37 | any number of `next` calls stays among the keys |
| Embedding.ModOfDecomposition | src/agents/embedding_agent.py:24 | arithmetic helper for the key cycle: a remainder is fixed by any decomposition x = q*n + m with 0 <= m < n |
| Embedding.ModStep | src/agents/embedding_agent.py:37 | arithmetic helper for the key cycle: one more step moves the remainder one place round the cycle |
| Embedding.AdvanceIsMod | src/agents/embedding_agent.py:24-37 | after r rotations from position p the cycle stands at (p + r) mod n |
| Embedding.FullCycle | src/agents/embedding_agent.py:24-37 | n rotations bring the cycle of n keys back to where it was |
| Embedding.MinInterval | src/agents/embedding_agent.py:28 | the interval times the rate is one minute for a positive rate, and there is no interval otherwise |
| Embedding.WaitTime | src/agents/embedding_agent.py:40-47 | the sleep is never negative, brings the clock at least to the last request plus the interval, and when positive to exactly that |
| Embedding.KeyRotator.constructor | src/agents/embedding_agent.py:22-28 | the first key is current (none without keys), the clock of the last request is 0, and the interval comes from the rate |
| Embedding.KeyRotator.GetCurrentKey | src/agents/embedding_agent.py:30-32 | the current key |
| Embedding.KeyRotator.RotateKey | src/agents/embedding_agent.py:34-38 | with more than one key the cycle moves to the next key, otherwise it stays; the current key is always the key at the cycle's position |
| Embedding.KeyRotator.WaitForRateLimit | src/agents/embedding_agent.py:40-47 | sleeps the wait above and records the clock after the sleep; the key is unchanged |
| Embedding.Rotated | src/agents/embedding_agent.py:34-38 | `rotate_key` keeps the position among the keys |
| Embedding.Attempts | src/agents/embedding_agent.py:130-158 | the retry loop leaves the cycle at a position among the keys |
| Embedding.RotatedIsNext | src/agents/embedding_agent.py:151-152 | a rotation after a failed attempt is one `next` of the cycle |
| Embedding.AttemptsFacts | src/agents/embedding_agent.py:130-158 | a vector comes back exactly when some attempt before `retry_count` succeeds; it is the reply of the first attempt that does, sent with the key after one rotation per earlier failure; when all fail the last failure is not followed by a rotation |
| Embedding.EmbedOne | src/agents/embedding_agent.py:115-158 | `embed_text` keeps the cycle among the keys, and fails at once without keys |
| Embedding.EmbedAllFacts | src/agents/embedding_agent.py:160-188 | one entry per text, in text order; each present entry is a reply of the service to that text with one of the keys on an allowed attempt; with no keys every call fails and the cycle does not move |
| Embedding.EmbedAll | src/agents/embedding_agent.py:160-188 | specification function of `embed_batch`, without a contract of its own; its properties are in `EmbedAllFacts`, `EmbedAllSingle` and `EmbedAllAppend` |
| Embedding.EmbedAllSingle | src/agents/embedding_agent.py:182-184 | embedding one text is one `embed_text` call |
| Embedding.EmbedAllAppend | src/agents/embedding_agent.py:177-186 | embedding a + b is embedding a, then b from where a left the key cycle |
| Embedding.KeptIndices | src/agents/embedding_agent.py:210-215 | the indices kept are increasing and each has an embedding |
| Embedding.KeptIndicesComplete | src/agents/embedding_agent.py:210-215 | every index with an embedding is kept |
| Embedding.KeptPairsAtIndices | src/agents/embedding_agent.py:209-217 | the embedded chunks are the chunks at the kept indices with their embeddings, in chunk order |
| Embedding.PayloadFacts | src/agents/embedding_agent.py:248-257 | the payload holds the seven fixed fields and every metadata key; a metadata key overrides a fixed field of the same name, and each fixed field the metadata does not name keeps the chunk's value |
| Embedding.Payload | src/agents/embedding_agent.py:248-257 | specification function of a point's payload, without a contract of its own; its properties are in `PayloadFacts` |
| Embedding.ToPoint | src/agents/embedding_agent.py:245-258 | a point's id lies in [0, 2^63) and its vector is the chunk's embedding |
| Embedding.Points | src/agents/embedding_agent.py:240-259 | one point per embedded chunk, in order |
| Embedding.PointsSnoc | src/agents/embedding_agent.py:241-259 | one turn of the points loop appends the next point |
| Embedding.PiecesStep | src/agents/embedding_agent.py:263-268 | one turn of the upsert loop sends the batch at i and leaves the batches of the rest |
| Embedding.BatchExtends | src/agents/embedding_agent.py:177-178 | the batch at i is not empty and extends the prefix before it |
| Embedding.BatchStep | src/agents/embedding_agent.py:177-186 | after one batch the embeddings are those of the texts up to the batch's end |
| Embedding.EmbeddingAgent.constructor | src/agents/embedding_agent.py:55-64 | a rotator exactly when there are keys, starting at the first key |
| Embedding.EmbeddingAgent.EmbedText | src/agents/embedding_agent.py:115-158 | the reply and the cycle position are those of the specification of the retry loop |
| Embedding.EmbeddingAgent.EmbedBatch | src/agents/embedding_agent.py:160-188 | with a positive batch size the embeddings and the cycle position are those of embedding every text in order; a negative batch size gives none |
| Embedding.EmbeddingAgent.EmbedBatches | src/agents/embedding_agent.py:177-186 | the batch loop embeds every text in order |
| Embedding.EmbeddingAgent.Gather | src/agents/embedding_agent.py:182-184 | the calls of one batch embed its texts in order |
| Embedding.EmbeddingAgent.EmbedChunks | src/agents/embedding_agent.py:190-221 | the chunks whose embedding came back, each with its embedding, in chunk order |
| Embedding.EmbeddingAgent.StoreChunksInQdrant | src/agents/embedding_agent.py:223-271 | the upserts, concatenated, are the points of all embedded chunks in order; there are as many as needed for batches of 100, none for an empty list |
| Embedding.EmbeddingAgent.UpsertBatches | src/agents/embedding_agent.py:261-269 | the loop sends the points in consecutive batches of at most 100 |
| Embedding.EmbeddingAgent.ProcessDocument | src/agents/embedding_agent.py:273-284 | the points stored are those of the chunks whose embedding came back, in chunk order |
| Evaluation.Pow10 | src/agents/evaluation_agent.py:85 | arithmetic helper for `float()`: a power of ten is at least one, so a fraction's divisor is never zero |
| Evaluation.ParseUnsigned | src/agents/evaluation_agent.py:85 | an unsigned decimal reads as a value that is not negative |
| Evaluation.NoPointInDigits | src/agents/evaluation_agent.py:85 | a string of digits has no decimal point |
| Evaluation.ParseUnsignedOfDigits | src/agents/evaluation_agent.py:85 | a string of digits reads as the whole number it spells |
| Evaluation.ParseFloatOfInt | src/agents/evaluation_agent.py:85 | a reply that is an integer, with or without a minus sign, reads as that integer |
| Evaluation.ParseFloatExamples | src/agents/evaluation_agent.py:84-88 | "7.5" reads as 7.5 and "high" does not read as a number |
| Evaluation.ParseFloat | src/agents/evaluation_agent.py:84-88 | specification function of `float()` on a reply, without a contract of its own; its properties are in `ParseFloatOfInt` and `ParseFloatExamples` |
| Evaluation.Passage | src/agents/evaluation_agent.py:64 | the passage shown is the first 500 characters of the result's text |
| Evaluation.Replies | src/agents/evaluation_agent.py:59-81 | only the first 5 results are rated, in order, each with the query and its passage |
| Evaluation.SucceededFacts | src/agents/evaluation_agent.py:55-109 | the replies come back exactly when no call raised, and then one per call, in order |
| Evaluation.ReplyScore | src/agents/evaluation_agent.py:84-88 | a reply that reads as a number once stripped scores that number, any other scores 5.0 |
| Evaluation.ScoresOf | src/agents/evaluation_agent.py:83-88 | never more scores than replies |
| Evaluation.ScoresOfFacts | src/agents/evaluation_agent.py:83-88 | no scores when every reply is empty; every score is the score of some non-empty reply |
| Evaluation.ScoresOfSnoc | src/agents/evaluation_agent.py:83-88 | one more reply adds its score unless it is empty |
| Evaluation.NumRelevant | src/agents/evaluation_agent.py:92 | the relevant scores are at most all scores |
| Evaluation.Precision | src/agents/evaluation_agent.py:93 | precision lies in [0, 1]; it is 0 exactly when there are no scores or none is relevant, and 1 exactly when every score is relevant |
| Evaluation.DivBetween | src/agents/evaluation_agent.py:91-93 | arithmetic helper for the precision bounds: a quotient lies between two bounds exactly when its numerator lies between them scaled by the divisor |
| Evaluation.RelevanceFacts | src/agents/evaluation_agent.py:48-109 | no results give zero metrics and no scores; the error is reported exactly when a call for one of the first 5 results raises, and then with zero metrics; otherwise at most 5 scores with their mean, relevant count and precision; precision is always in [0, 1] |
| Evaluation.RelevanceOf | src/agents/evaluation_agent.py:33-109 | specification function of `evaluate_retrieval_relevance`, without a contract of its own; its properties are in `RelevanceFacts`, `RatedScoresFailed` and `RatedScoresOf` |
| Evaluation.RatedScoresFailed | src/agents/evaluation_agent.py:59-109 | one rated call that raises makes the whole rating fail |
| Evaluation.RatedScoresOf | src/agents/evaluation_agent.py:59-88 | when every rated call replies, the scores are those of the replies |
| Evaluation.SumBetween | src/agents/evaluation_agent.py:91 | a sum of values between two bounds lies between the bounds times the count |
| Evaluation.MeanBetween | src/agents/evaluation_agent.py:91 | the mean of values lies between any bounds of the values |
| Evaluation.Mean | src/agents/evaluation_agent.py:91 | specification function of `sum(s) / len(s) if s else 0.0`, without a contract of its own; its properties are in `MeanBetween`, `FluencyIsMean` and `RelevanceFacts` |
| Evaluation.JsonSpanIff | src/agents/evaluation_agent.py:158-161 | a JSON span is found exactly when some '{' comes before some '}' |
| Evaluation.JsonSpanShape | src/agents/evaluation_agent.py:158-161 | the span runs from the first '{' to the last '}' inclusive |
| Evaluation.Values | src/agents/evaluation_agent.py:165 | `scores.values()` in key order |
| Evaluation.FluencyIsMean | src/agents/evaluation_agent.py:152-192 | every fluency answer reports scores, and its `overall` is their mean |
| Evaluation.FluencyBounded | src/agents/evaluation_agent.py:165 | `overall` lies between any bounds of the reported scores |
| Evaluation.FluencyFallbacks | src/agents/evaluation_agent.py:126-192 | a call that raises reports zeros and the error; a reply without a '{' ... '}' span reports 7.0 everywhere; an error is only ever reported with zeros; only an object of numbers read from the span reports scores of its own |
| Evaluation.FluencyOf | src/agents/evaluation_agent.py:111-192 | specification function of `evaluate_response_fluency`, without a contract of its own; its properties are in `FluencyIsMean`, `FluencyBounded` and `FluencyFallbacks` |
| Evaluation.Preview | src/agents/evaluation_agent.py:230 | a response of at most 200 characters is kept whole; a longer one is cut to its first 200 characters followed by "..." |
| Evaluation.EvaluationOf | src/agents/evaluation_agent.py:194-242 | the latency is reported in milliseconds as given and in seconds as a thousandth of it; the number retrieved is the number of results |
| Evaluation.EvaluationPrecisionBounded | src/agents/evaluation_agent.py:216-232 | every evaluation's precision lies in [0, 1] |
| Evaluation.MinOf | src/agents/evaluation_agent.py:315 | `min` is one of the values and no greater than any |
| Evaluation.MaxOf | src/agents/evaluation_agent.py:316 | `max` is one of the values and no less than any |
| Evaluation.AggregateOf | src/agents/evaluation_agent.py:295-317 | no aggregate (`{}`) exactly when there are no evaluations |
| Evaluation.AggregateLatencies | src/agents/evaluation_agent.py:308-316 | the least latency is at most the mean, which is at most the greatest; both are latencies of some query and bound all of them |
| Evaluation.AggregatePrecision | src/agents/evaluation_agent.py:302-312 | the mean precision of evaluations lies in [0, 1] |
| Evaluation.EvaluationAgent.constructor | src/agents/evaluation_agent.py:24-26 | the agent keeps the configured switch and rating model |
| Evaluation.EvaluationAgent.EvaluateRetrievalRelevance | src/agents/evaluation_agent.py:33-109 | the metrics of the specification above |
| Evaluation.EvaluationAgent.RateResults | src/agents/evaluation_agent.py:55-89 | the rating loop gives the scores of the replies, or fails when a call raises |
| Evaluation.EvaluationAgent.EvaluateQuery | src/agents/evaluation_agent.py:194-242 | the evaluation of the specification above |
| Retriever.ExtraFields | src/agents/retriever_agent.py:100-101 | the metadata holds every payload key but the five fixed ones, each with its payload value |
| Retriever.StoreFilter | src/agents/retriever_agent.py:147-156 | a filter goes to the vector store exactly when a non-empty filter is given and filtering is enabled, and then it is that filter |
| Retriever.DenseSearch | src/agents/retriever_agent.py:129-185 | a failing store gives no results; otherwise one result per hit, in hit order, with the hit's score, its chunk id and the payload's other keys as metadata |
| Retriever.SparseFromNone | src/agents/retriever_agent.py:224-247 | once a position past the corpus is met the sparse loop raises, whatever follows |
| Retriever.SparseFromFacts | src/agents/retriever_agent.py:224-241 | the loop's results are no more than the positions, in non-increasing score order, each the document at a listed position with that position's score and passing the filter when filtering |
| Retriever.SparseFromSnoc | src/agents/retriever_agent.py:224-241 | one more position keeps those facts |
| Retriever.TopIndicesAreHighest | src/agents/retriever_agent.py:220 | every position kept by the cut scores at least as high as every position left out |
| Retriever.TopIndicesSorted | src/agents/retriever_agent.py:220 | the kept positions are in non-increasing score order |
| Retriever.TopIndices | src/agents/retriever_agent.py:220 | specification function of the top-k indices by descending score, without a contract of its own; its properties are in `TopIndicesAreHighest` and `TopIndicesSorted` |
| Retriever.SparseResultsFacts | src/agents/retriever_agent.py:212-243 | the sparse search returns at most `top_k` results in non-increasing score order, each from one of the `top_k` best positions and passing the filter |
| Retriever.FilterAfterCut | src/agents/retriever_agent.py:220-230 | the filter is applied after the cut: with `top_k` 1, an "en" document ranked second is not returned for the filter language "en" when the first is "bn" |
| Retriever.SparseResults | src/agents/retriever_agent.py:212-243 | specification function of the BM25 results, without a contract of its own; its properties are in `SparseResultsFacts` and `FilterAfterCut` |
| Retriever.RrfTerm | src/agents/retriever_agent.py:307-320 | a reciprocal-rank term lies in (0, 1/61] |
| Retriever.RrfBound | src/agents/retriever_agent.py:307-320 | `1/(60 + rank + 1)` lies in (0, 1/61] |
| Retriever.LastRank | src/agents/retriever_agent.py:306-316 | the last result with a chunk id, the one whose dense entry survives |
| Retriever.FirstRank | src/agents/retriever_agent.py:283-296 | the first result with a chunk id, the one whose fields a sparse-only entry keeps |
| Retriever.FusedIdsPresent | src/agents/retriever_agent.py:268-299 | every id of the result map comes from the dense or the sparse list |
| Retriever.Entries | src/agents/retriever_agent.py:299 | the map's values, one fused entry per id in insertion order |
| Retriever.HasIdAppend | src/agents/retriever_agent.py:268-296 | an id is in a + b exactly when it is in a or in b |
| Retriever.FusedIdsAppend | src/agents/retriever_agent.py:283-296 | the insertion order grows by a chunk id the first time it is seen |
| Retriever.LastRankAppend | src/agents/retriever_agent.py:271-280 | appending a result moves the last rank of its id to it and leaves other ids alone |
| Retriever.FirstRankAppend | src/agents/retriever_agent.py:283-296 | appending a result leaves the first rank of an id already seen alone |
| Retriever.SumTermsAbsent | src/agents/retriever_agent.py:283-296 | an id not in the sparse list gains nothing from it |
| Retriever.SumTermsAppend | src/agents/retriever_agent.py:283-296 | a sparse result adds its term to its own id only |
| Retriever.DenseStep | src/agents/retriever_agent.py:271-280 | one step of the dense loop overwrites any earlier entry of its chunk id, whose place in the map stays |
| Retriever.SparseStep | src/agents/retriever_agent.py:283-296 | one step of the sparse loop adds its term to an existing entry or inserts a new one at the end |
| Retriever.AddDense | src/agents/retriever_agent.py:271-280 | the dense loop leaves the map of the specification for the dense list alone |
| Retriever.AddSparse | src/agents/retriever_agent.py:283-296 | the sparse loop leaves the map of the specification for both lists |
| Retriever.FuseWith | src/agents/retriever_agent.py:249-336 | the fusion loops and the sort give the fused list of the specification |
| Retriever.FusedValuesIds | src/agents/retriever_agent.py:299 | the map's values carry its keys, once each |
| Retriever.DedupIds | src/agents/retriever_agent.py:268-296 | the map's keys are the chunk ids of the two lists, each once |
| Retriever.ValuesCarryIds | src/agents/retriever_agent.py:299 | the value at each key carries that key's chunk id |
| Retriever.SameKeys | src/agents/retriever_agent.py:299 | the values have the same distinct ids as the keys |
| Retriever.FusedFacts | src/agents/retriever_agent.py:249-336 | the fused list has exactly one entry per chunk id of either list, each its fused entry, in non-increasing score order, with ties in the map's insertion order |
| Retriever.Fused | src/agents/retriever_agent.py:249-336 | specification function of `_fuse_results`, without a contract of its own; its properties are in `FusedFacts`, `WeightedFusionScores` and `RrfScoreBounds`, and `FuseWith` is proved against it |
| Retriever.SumTermsSingle | src/agents/retriever_agent.py:318-332 | in a list without repeated ids an id gains exactly the term of its one occurrence |
| Retriever.WeightedFusionScores | src/agents/retriever_agent.py:266-299 | with no repeated ids, a chunk found by both searches scores `dense_weight * dense + keyword_weight * sparse`, and a chunk found by one keeps that search's weighted score and fields |
| Retriever.WeightedBoth | src/agents/retriever_agent.py:271-286 | a chunk in both lists: dense fields, summed weighted score |
| Retriever.WeightedDenseOnly | src/agents/retriever_agent.py:271-280 | a chunk only in the dense list: its weighted dense score |
| Retriever.WeightedSparseOnly | src/agents/retriever_agent.py:287-296 | a chunk only in the sparse list: its weighted sparse score |
| Retriever.RrfScoreBounds | src/agents/retriever_agent.py:301-334 | with no repeated ids every reciprocal-rank score lies in (0, 2/61] |
| Retriever.RrfRepeatedSparseExceeds | src/agents/retriever_agent.py:319-322 | a chunk id repeated three times in the sparse list collects one term per occurrence and exceeds 2/61 |
| Retriever.CollectSparse | src/agents/retriever_agent.py:223-241 | the loop over the top positions gives the results of the specification, or fails at a position past the corpus |
| Retriever.Corpus | src/agents/retriever_agent.py:105 | one lower-cased, whitespace-split token list per document, in order |
| Retriever.Tokenize | src/agents/retriever_agent.py:214 | specification function of `text.lower().split()`, without a contract of its own; it is used by `Corpus`, `RetrieverAgent.SparseSearch` and `Reranker.BlankQueryKeepsScores` |
| Retriever.RetrieverAgent.constructor | src/agents/retriever_agent.py:54-76 | the configured switches and weights, no index and no documents |
| Retriever.RetrieverAgent.BuildBm25Index | src/agents/retriever_agent.py:78-114 | a failing scroll leaves the documents and no index; otherwise the documents are replaced by the scrolled payloads and the index is built from their tokenised texts when it can be |
| Retriever.RetrieverAgent.SparseSearch | src/agents/retriever_agent.py:187-247 | the index is built only when there is none; no results without an index or documents; otherwise the sparse results of the specification; afterwards the index is settled, so a later search builds nothing new, and a settled index is left as it was |
| Retriever.RetrieverAgent.FuseResults | src/agents/retriever_agent.py:249-336 | the fused list of the specification with this agent's weights |
| Retriever.RetrieverAgent.Retrieve | src/agents/retriever_agent.py:338-380 | the result is `RetrievalOf` the query with the index as it stands afterwards: no results when the query cannot be embedded; at most `top_k` results; the dense results for `2*top_k`, fused with the sparse results for `2*top_k` when BM25 is enabled, cut to `top_k`; the index is untouched when BM25 is off or already settled |
| Retriever.RetrievalOf | src/agents/retriever_agent.py:338-380 | specification function of `retrieve` over a given index state, without a contract of its own; `Retrieve`, `RetrieveAll` and `RetrieveContext` are proved against it |
| Reranker.DigitTokens | src/agents/reranker_agent.py:115 | only the tokens made of digits become indices, so never more indices than tokens |
| Reranker.Unmentioned | src/agents/reranker_agent.py:124-126 | the positions the reply does not mention all lie below the number of results |
| Reranker.RerankPositions | src/agents/reranker_agent.py:117-126 | every output position lies below the number of results |
| Reranker.Pick | src/agents/reranker_agent.py:119-126 | one result per position, the result at that position |
| Reranker.PickAppend | src/agents/reranker_agent.py:119-126 | appending a position appends its result |
| Reranker.ParseRerankingResponse | src/agents/reranker_agent.py:106-132 | the results at the reply's in-range indices, in reply order, then every unmentioned result in input order |
| Reranker.ReplyIndices | src/agents/reranker_agent.py:113-115 | specification function of the indices read from the first line of the reply, without a contract of its own; its properties are in `DigitTokens`, `ParseRerankingResponse` and `EveryResultKept` |
| Reranker.Reorder | src/agents/reranker_agent.py:117-128 | the two loops pick the results at the rerank positions |
| Reranker.PickMentioned | src/agents/reranker_agent.py:118-121 | the first loop keeps each reply index below `len(results)`, in reply order |
| Reranker.AppendUnmentioned | src/agents/reranker_agent.py:124-126 | the second loop appends every unmentioned position, ascending |
| Reranker.UnmentionedStep | src/agents/reranker_agent.py:124-126 | one step of the second loop appends position i exactly when the reply does not mention it |
| Reranker.EveryPositionKept | src/agents/reranker_agent.py:117-126 | every input position appears among the output positions |
| Reranker.EveryResultKept | src/agents/reranker_agent.py:106-128 | every input result appears in the parsed output |
| Reranker.PermutationReplyFollowed | src/agents/reranker_agent.py:117-126 | a reply that is a permutation of 0..n-1 is followed exactly |
| Reranker.RepeatedIndexDuplicates | src/agents/reranker_agent.py:119-121 | a repeated index emits its result twice: "0 0" over two results gives [a, a, b] |
| Reranker.Overlap | src/agents/reranker_agent.py:159-165 | the overlap counts at most the query's distinct tokens |
| Reranker.SubsetCard | src/agents/reranker_agent.py:165 | set helper for the overlap bound: a subset is no larger than its set |
| Reranker.Rescore | src/agents/reranker_agent.py:163-171 | the new score is never below the old one, and no other field changes |
| Reranker.BlankQueryKeepsScores | src/agents/reranker_agent.py:159-170 | a query without tokens changes no score |
| Reranker.RescoreAll | src/agents/reranker_agent.py:162-171 | one rescored result per input, in order |
| Reranker.CpuRerankedFacts | src/agents/reranker_agent.py:173-176 | the output is sorted by the new scores, holds min(k, n) results for a non-negative k, each a rescored input, and equal scores keep the input order |
| Reranker.CpuReranked | src/agents/reranker_agent.py:134-176 | specification function of `rerank_with_cpu`'s result, without a contract of its own; its properties are in `CpuRerankedFacts` |
| Reranker.RescoreInPlace | src/agents/reranker_agent.py:162-171 | the scoring loop replaces every result in the list by its rescored version |
| Reranker.RerankerAgent.constructor | src/agents/reranker_agent.py:21-25 | the configured switch, backend and `top_k` |
| Reranker.RerankerAgent.RerankWithGemini | src/agents/reranker_agent.py:32-82 | no results for no input; the first `top_k` inputs in order when the call fails or the reply is empty; otherwise the first `top_k` of the parsed reply |
| Reranker.RerankerAgent.RerankWithCpu | src/agents/reranker_agent.py:134-176 | the caller's results are rescored in place, and the returned list is their stable sort by new score cut to `top_k` |
| Reranker.RerankerAgent.Rerank | src/agents/reranker_agent.py:178-202 | disabled reranking keeps the first `top_k or len(results)` results; otherwise the Gemini backend or the keyword-overlap backend decides |
| Decomposition.ParseModelName | src/agents/decomposition_agent.py:45-51 | a name without ':' is kept whole; otherwise everything after the first ':' |
| Decomposition.ParseModelNameOfPrefixed | src/agents/decomposition_agent.py:45-51 | a provider prefix without ':' is dropped, and nothing after it |
| Decomposition.ParseModelNameExample | src/agents/decomposition_agent.py:45-51 | "ollama:deepseek-r1:1.5b" gives "deepseek-r1:1.5b" |
| Decomposition.DigitRun | src/agents/decomposition_agent.py:140 | the leading run of ASCII digits: all digits, and followed by a non-digit or the end |
| Decomposition.StripNumbering | src/agents/decomposition_agent.py:140 | removing a leading number never lengthens the line |
| Decomposition.StripBullet | src/agents/decomposition_agent.py:143 | removing a leading bullet never lengthens the line |
| Decomposition.CleanLineEnds | src/agents/decomposition_agent.py:137-146 | cleaning never lengthens a line and leaves no quote at either end |
| Decomposition.KeptLines | src/agents/decomposition_agent.py:135-149 | no more kept lines than lines, each longer than ten characters |
| Decomposition.KeptLinesFromLines | src/agents/decomposition_agent.py:135-149 | every kept line is the cleaned form of one of the lines |
| Decomposition.SubQueries | src/agents/decomposition_agent.py:129-151 | at most four sub-queries, each longer than ten characters |
| Decomposition.FirstKeptLines | src/agents/decomposition_agent.py:151 | the first four kept lines: at most four, each longer than ten characters |
| Decomposition.SubQueriesFromLines | src/agents/decomposition_agent.py:129-151 | the sub-queries are the first kept lines in line order, each the cleaned form of one of the reply's lines |
| Decomposition.ParseSubQueries | src/agents/decomposition_agent.py:129-151 | the loop and the cut give the sub-queries of the specification |
| Decomposition.KeepLines | src/agents/decomposition_agent.py:135-149 | the loop cleans each line and keeps those longer than ten characters |
| Decomposition.WithOriginalFacts | src/agents/decomposition_agent.py:191-203 | the original query comes first, then sub-queries; one to five entries, pairwise distinct ignoring case, each the query or a sub-query, and every lower-case form of the inputs present |
| Decomposition.WithOriginal | src/agents/decomposition_agent.py:191-203 | specification function of the original query followed by the new sub-queries, without a contract of its own; its properties are in `WithOriginalFacts`, and `DecompositionAgent.DecomposeQuery` is proved against it |
| Decomposition.DecompositionAgent.constructor | src/agents/decomposition_agent.py:21-25 | the configured switch, the primary model without its provider prefix, the fallback model as configured |
| Decomposition.DecompositionAgent.DecomposeWithOllama | src/agents/decomposition_agent.py:53-93 | no sub-queries when the request fails; otherwise the sub-queries of the stripped reply |
| Decomposition.DecompositionAgent.DecomposeWithGemini | src/agents/decomposition_agent.py:95-127 | an empty or failed reply gives no sub-queries; otherwise the sub-queries of the reply |
| Decomposition.DecompositionAgent.DecomposeQuery | src/agents/decomposition_agent.py:153-203 | a disabled agent or a query of fewer than eight words gives the query alone; Gemini is used only when Ollama gave no sub-queries; without sub-queries the query alone, else the query and its sub-queries de-duplicated ignoring case; always one to five queries, the original first |
| MetadataFilters.FirstLanguageInFacts | src/agents/metadata_filter_agent.py:32-40 | when every name maps to a two-letter code, the search finds nothing exactly when no name occurs in the query, and otherwise the code of the first name in list order that occurs |
| MetadataFilters.LanguageFilterFacts | src/agents/metadata_filter_agent.py:19-40 | the language filter is one of en, zh, hi, bn, ur: the code of the first supported name found in the lower-cased query, and absent only when none is found |
| MetadataFilters.BengaliQueryFiltersEnglish | src/agents/metadata_filter_agent.py:32-38 | matching is by substring with "en" tried first, so "Show me documents in Bengali" is filtered to "en" |
| MetadataFilters.ExtractLanguageFilter | src/agents/metadata_filter_agent.py:28-40 | the loop over the supported names returns the language filter |
| MetadataFilters.LanguageFilter | src/agents/metadata_filter_agent.py:19-40 | specification function of `extract_language_filter`, without a contract of its own; its properties are in `LanguageFilterFacts`, `BengaliQueryFiltersEnglish` and `FiltersFacts`, and `ExtractLanguageFilter` is proved against it |
| MetadataFilters.PageMatchAt | src/agents/metadata_filter_agent.py:45 | a match of the page pattern at a position is non-empty, inside the query, and its group is all digits |
| MetadataFilters.PageFoundIsDigits | src/agents/metadata_filter_agent.py:45-47 | the group of the first page match is a digit string |
| MetadataFilters.PageFilterIsFirstMatch | src/agents/metadata_filter_agent.py:42-51 | there is a page filter exactly when the page pattern matches somewhere, and it is the number read at the first position where it does |
| MetadataFilters.PageFilterOfMention | src/agents/metadata_filter_agent.py:45-49 | "page n" is read back as n for every natural n |
| MetadataFilters.PageFilter | src/agents/metadata_filter_agent.py:42-51 | specification function of `extract_page_filter`, without a contract of its own; its properties are in `PageFilterIsFirstMatch`, `PageFilterOfMention` and `FiltersFacts` |
| MetadataFilters.LongestBounded | src/agents/metadata_filter_agent.py:56 | the greedy identifier run gives back characters until a word boundary holds: the length kept is the longest one ending at a boundary |
| MetadataFilters.IdAfter | src/agents/metadata_filter_agent.py:56 | the identifier after the whitespace is non-empty, inside the query and made of letters, digits, '_' and '-' |
| MetadataFilters.DocMatchAt | src/agents/metadata_filter_agent.py:56 | a match of the document pattern at a position ("document" tried before "doc") has a non-empty identifier group |
| MetadataFilters.DocIdFilterIsFirstMatch | src/agents/metadata_filter_agent.py:53-62 | there is a document filter exactly when the document pattern matches somewhere, and it is the group at the first position where it does |
| MetadataFilters.DocIdFilterShape | src/agents/metadata_filter_agent.py:56-60 | the document filter is non-empty and made of letters, digits, '_' and '-' |
| MetadataFilters.DocIdFilterOfMention | src/agents/metadata_filter_agent.py:56-60 | "doc x" gives back x for an identifier ending in a word character |
| MetadataFilters.DocIdFilter | src/agents/metadata_filter_agent.py:53-62 | specification function of `extract_doc_id_filter`, without a contract of its own; its properties are in `DocIdFilterIsFirstMatch`, `DocIdFilterShape`, `DocIdFilterOfMention` and `FiltersFacts` |
| MetadataFilters.FiltersFacts | src/agents/metadata_filter_agent.py:64-94 | each key is present exactly when its detector found something and holds what it found; there are no other keys |
| MetadataFilters.ExtractFilters | src/agents/metadata_filter_agent.py:64-94 | the dictionary filled key by key equals the filters |
| MetadataFilters.Filters | src/agents/metadata_filter_agent.py:64-94 | specification function of `extract_filters`, without a contract of its own; its properties are in `FiltersFacts`, and `ExtractFilters` and `Rag.RAGAgent.PlanQueries` are proved against it |
| MetadataFilters.WordMatchAt | src/agents/metadata_filter_agent.py:112 | a whole-word match of a language name covers exactly that name's length, inside the query |
| MetadataFilters.RemoveWords | src/agents/metadata_filter_agent.py:111-112 | removing each name in turn never lengthens the query |
| MetadataFilters.RemoveMentions | src/agents/metadata_filter_agent.py:107-120 | the removal steps never lengthen the query |
| MetadataFilters.CleanedQueryIsSingleSpaced | src/agents/metadata_filter_agent.py:96-125 | the cleaned query is no longer than the query, has no whitespace at its ends and never two whitespace characters in a row |
| MetadataFilters.CollapseThenStrip | src/agents/metadata_filter_agent.py:123 | collapsing whitespace runs to one space and then stripping leaves a string that starts and ends outside the class, with every class member a single space |
| MetadataFilters.CleanedQueryWithoutFilters | src/agents/metadata_filter_agent.py:107-125 | without any filter key an already single-spaced query comes back unchanged |
| MetadataFilters.RemoveWordOnlyWhole | src/agents/metadata_filter_agent.py:112 | a language name that occurs only inside longer words is not removed |
| MetadataFilters.CleanQuery | src/agents/metadata_filter_agent.py:96-125 | the language names, then page and document mentions are removed, then the whitespace is normalised, giving the cleaned query |
| MetadataFilters.CleanedQuery | src/agents/metadata_filter_agent.py:96-125 | specification function of `clean_query`, without a contract of its own; its properties are in `CleanedQueryIsSingleSpaced` and `CleanedQueryWithoutFilters`, and `CleanQuery` is proved against it |
| Rag.SearchQueryFacts | src/agents/rag_agent.py:77-78 | a query without language, page or document hints is searched verbatim; one with a hint is searched cleaned, single-spaced and no longer than it was |
| Rag.SearchQuery | src/agents/rag_agent.py:76-78 | specification function of the searched question, without a contract of its own; its properties are in `SearchQueryFacts` |
| Rag.UniqueResultsFacts | src/agents/rag_agent.py:98-104 | every chunk id retrieved appears exactly once in the merged list, carried by the first result that had it, in first-seen order |
| Rag.FirstCopyWins | src/agents/rag_agent.py:98-104 | the first copy of a chunk is kept even when a later copy scored higher |
| Rag.UniqueResults | src/agents/rag_agent.py:98-104 | specification function of the merge, without a contract of its own; its properties are in `UniqueResultsFacts` and `FirstCopyWins` |
| Rag.ContextTextAppend | src/agents/rag_agent.py:134-137 | each chunk is rendered as its "[Document: d, Page: p, Language: l]" header line and text, and each further chunk adds a blank line and its block at the end |
| Rag.ContextText | src/agents/rag_agent.py:133-137 | specification function of the context text of `build_prompt`, without a contract of its own; its properties are in `ContextTextAppend` and `BuildPromptContext` |
| Rag.HistoryWindow | src/agents/rag_agent.py:140-147 | one history line per message among the last five, oldest first, with the role (default "user") in capitals before the content |
| Rag.HistoryTextEmpty | src/agents/rag_agent.py:140-147 | the history text is empty exactly when there is no history |
| Rag.HistoryText | src/agents/rag_agent.py:139-147 | specification function of the history text of `build_prompt`, without a contract of its own; its properties are in `HistoryWindow`, `HistoryTextEmpty` and `BuildPromptHistory` |
| Rag.BuildPrompt | src/agents/rag_agent.py:116-172 | specification function of `build_prompt`, without a contract of its own; its properties are in `BuildPromptShape`, `BuildPromptContext`, `BuildPromptQuestion` and `BuildPromptHistory` |
| Rag.BuildPromptShape | src/agents/rag_agent.py:149-172 | the prompt opens with the system prompt, has the "Previous conversation" section exactly when there is history, and ends by asking for the answer |
| Rag.SectionsWithHistory | src/agents/rag_agent.py:150-161 | with history the sections open with the "Previous conversation" heading and end with the answer cue |
| Rag.SectionsWithoutHistory | src/agents/rag_agent.py:162-170 | without history the sections do not open with the "Previous conversation" heading and still end with the answer cue |
| Rag.BuildPromptContext | src/agents/rag_agent.py:149-172 | the prompt carries the retrieved chunks' text right after the "Context from documents" heading |
| Rag.BuildPromptQuestion | src/agents/rag_agent.py:149-172 | the question follows the context, labelled "Current question" exactly when there is history and "Question" otherwise, and only the answer cue follows it |
| Rag.BuildPromptHistory | src/agents/rag_agent.py:150-161 | with history, the history lines follow the "Previous conversation" heading right after the system prompt |
| Rag.RAGAgent.constructor | src/agents/rag_agent.py:25-34 | the primary model is named without its provider prefix; the fallback model is kept as configured |
| Rag.RAGAgent.RetrieveAll | src/agents/rag_agent.py:89-96 | each query's results are `RetrievalOf` that query with the same filter and top_k over the index the loop leaves, the first sparse search building the index the later ones reuse; the results are appended in query order; no results for a query that cannot be embedded, at most top_k per query |
| Rag.RAGAgent.PlanQueries | src/agents/rag_agent.py:76-84 | the filters are those of the query, the search query is the cleaned query only when a filter was found, and decomposition runs only when both switches are on, otherwise there is exactly one query |
| Rag.RAGAgent.MergeAndRerank | src/agents/rag_agent.py:98-110 | the merged results are reranked only when reranking is on and there are more than top_k of them, otherwise cut to the first top_k; the CPU backend gives the stable sort by overlap score; the Gemini backend gives the cut merge when the reply is missing or empty, and otherwise the results in the order the reply names, unmentioned ones after, cut to top_k; never more than top_k results |
| Rag.RAGAgent.RetrieveContext | src/agents/rag_agent.py:59-114 | the whole of retrieve_context: the queries planned, each retrieved as `RetrievalOf` with the filters extracted from the question, merged first come first kept, then reranked by the configured backend (CPU order, or the Gemini reply's order) or cut to top_k |

## Left out

- External services are inputs, not code: the Ollama and Gemini calls (generation, cleanup, decomposition, reranking, embedding), the Qdrant client, `BM25Okapi` scoring, the tiktoken encoder, PyMuPDF, pdf2image and Tesseract. A reply is an `Option`, with `None` for a call that raises or answers with a non-200 status.
- `json.loads` in `evaluate_response_fluency` is a parameter. Python's `float()` in `evaluate_retrieval_relevance` is modelled on signed decimals only. Exponents, `inf`, `nan` and underscores are read as no number, where Python would accept them.
- `ensure_collection`, `genai.configure` and `pytesseract.tesseract_cmd` set up external clients and are not modelled.
- `embed_query` in src/agents/retriever_agent.py and `RetrievalResult.to_dict` are not modelled: the first only forwards to the embedding service, which is an input, and the second builds a dict for display.
- `_build_reranking_prompt` and the prompt templates of the cleanup, decomposition and reranking agents are not modelled: they are only text sent to a model whose reply is an input.
- Embedding.EmbeddingAgent.EmbedText does not call `wait_for_rate_limit` or sleep for the backoff: clocks and sleeping are not modelled, and `WaitForRateLimit` is modelled on its own with the clock readings as parameters.
- Embedding.EmbeddingAgent.EmbedBatch requires a non-zero batch size: Python's `range` raises `ValueError` for a zero step, and that exception is not modelled.
- Time stamps: `CURRENT_TIMESTAMP` and `time.time()` are parameters. Ordering by `created_at` is modelled as insertion order, so ties within one second are resolved the way insertion order resolves them.
- Hashing: SHA-256 in `compute_file_hash` and Python's `hash(chunk_id)` for point ids are parameters.
- `compute_file_hash`, `extract_page_metadata`, `pdf_page_to_image` and `get_pdf_page_count` in src/common/utils.py read files or call PyMuPDF and are not modelled.
- `resolve_paths`, `set_tesseract_cmd` and the `get_*_dir` helpers in src/common/config.py create directories and read the environment, and are not modelled; the configured values are constants.
- File writing is not modelled: `save_chunks`, `save_cleaned_text`, `_save_raw_output`, `save_evaluation_report` and `_generate_html_report`.
- The watchdog handler, `initialize`, `scan_existing_files`, `start_watching` and `stop_watching` in src/agents/ingestion_agent.py depend on the file system and threads, and are not modelled.
- Concurrency: `asyncio.gather` and `create_task` are taken in order, one call after the other. The read-then-update in `get_next_job` is modelled as atomic.
- `generate_with_ollama_stream`, `generate_with_gemini`, `chat`, `get_session_history` and `clear_session` in src/agents/rag_agent.py are the streaming chat front end around the language models, and are not modelled. The storage operations they call are modelled in `Storage`.
- Logging is not modelled.
- Rag.ValueText renders a payload value of any other type, such as a float page number or a list, as the empty string, where the f-string in `build_prompt` writes `str(value)`: the model keeps no text for such values.
- Chunking.ChunkingAgent.ChunkTextRecursive is modelled with the corrected sentence split (`Sentences`), not `split_by_sentences` as written, so its chunks keep the text after the last sentence end, which the source drops. A text such as "甲。乙" is packed as two sentences instead of falling through to the token windows. The source's own chunk texts are `ChunkTextsAsWritten`.
- Chunking.ChunkingAgent.ChunkDocument builds its chunks from `ChunkTextRecursive`, so it inherits the corrected sentence split and differs from the source on the same texts.
- Chunking.ChunkTextsDiverges states when the corrected chunker fails to return. For the source as written, see `ChunkTextsAsWrittenDiverges`: with `max_tokens <= overlap_tokens`, "a。b" over the limit loops forever there and returns in the model, as `TrailingSentenceChangesChunking` shows.
- Scores, weights and averages are `real`: IEEE rounding, NaN and infinities are not modelled.
- Regular expressions are written as predicates for the patterns the core uses. `\d`, `\w`, `\b`, `str.isdigit`, `lower()` and `upper()` are modelled on ASCII characters; whitespace is the set `str.isspace` accepts. So `_parse_reranking_response` never meets a token such as "²", which `isdigit` accepts and `int()` then rejects with a `ValueError`.
- Non-termination is an explicit outcome. In `_cleanup_large_text` a page segment over 3000 characters recurses on itself, which Python ends with a `RecursionError`. In `chunk_text_recursive` the token-window loop never ends when `max_tokens - overlap_tokens` is not positive. Both are modelled as an outcome saying so.

## Findings

| source | as written | input that shows it | evidently intended | confidence | as-written member | corrected member |
|---|---|---|---|---|---|---|
| src/agents/chunking_agent.py:79-94 | the recombination loop runs over `range(0, len(sentences) - 1, 2)`, so it never reaches the last part of the split, the text after the last sentence end; its `else` branch is dead | "甲。乙" with language "zh" gives ["甲。"]: "乙" is lost, and so is any text without a sentence end | every part is recombined, so the trailing sentence is kept, as the `else` branch shows | not executed | Chunking.TrailingSentenceLost | Chunking.ChunkingAgent.SplitBySentences |
