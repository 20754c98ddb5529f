/** src/agents/chunking_agent.py: cutting a document into chunks of a
    bounded number of tokens. The tokenizer is a parameter (`encode` and
    `decode`). Text over the limit is split at paragraph breaks, else at
    sentence ends, else into fixed windows of tokens; paragraphs and
    sentences are packed greedily into chunks, each new chunk optionally
    starting with the last tokens of the chunk before it. */
module Chunking {
  import opened Seqs
  import opened Text
  import opened Patterns
  import Utils
  import Config
  import Retriever

  /** A tokenizer: `encoding.encode` and `encoding.decode`. */
  datatype Encoding = Encoding(encode: string -> seq<nat>, decode: seq<nat> -> string)

  /** `count_tokens` */
  function CountTokens(enc: Encoding, s: string): nat
  {
    |enc.encode(s)|
  }

  // ---------------------------------------------------------------------
  // Paragraphs: `re.split(r'\n\n+', text)`
  // ---------------------------------------------------------------------

  predicate IsNewline(c: char) { c == '\n' }

  /** `\n\n+` at i: the whole run of newlines there, when it has two. */
  function ParagraphBreakAt(s: string, i: nat): Option<Found>
  {
    if i <= |s| then
      var n := RunFrom(s, i, IsNewline);
      if n >= 2 then Some(Found(n, s[i..i + n])) else None
    else None
  }

  function ParagraphBreaks(s: string): Matcher
  {
    (j: nat) => ParagraphBreakAt(s, j)
  }

  /** s has a blank line starting at j. */
  predicate BlankLineAt(s: string, j: nat)
  {
    j + 1 < |s| && s[j] == '\n' && s[j + 1] == '\n'
  }

  lemma ParagraphHit(s: string, j: nat)
    ensures Hit(s, j, ParagraphBreaks(s)) <==> BlankLineAt(s, j)
  {
    if j < |s| {
      var n := RunFrom(s, j, IsNewline);
      if BlankLineAt(s, j) {
        assert n != 0 && n != 1;
      }
    }
  }

  function Paragraphs(text: string): (r: seq<string>)
    ensures |r| >= 1
  {
    SplitBy(text, 0, 0, ParagraphBreaks(text))
  }

  /** There is more than one paragraph exactly when the text has a blank
      line; without one the only paragraph is the text itself. */
  lemma ParagraphsFacts(text: string)
    ensures |Paragraphs(text)| > 1 <==> exists j :: BlankLineAt(text, j)
    ensures |Paragraphs(text)| == 1 ==> Paragraphs(text) == [text]
  {
    SplitByFacts(text, 0, 0, ParagraphBreaks(text));
    forall j: nat ensures Hit(text, j, ParagraphBreaks(text)) <==> BlankLineAt(text, j) {
      ParagraphHit(text, j);
    }
    assert text[0..] == text;
  }

  // ---------------------------------------------------------------------
  // Sentences: `split_by_sentences`
  // ---------------------------------------------------------------------

  /** `[.!?]+\s+` at i: a run of sentence marks and then of white space. */
  function SentenceEndAt(s: string, i: nat): Option<Found>
  {
    if i <= |s| then
      var p := RunFrom(s, i, Utils.IsSentenceEnd);
      var w := RunFrom(s, i + p, IsSpace);
      if p > 0 && w > 0 then Some(Found(p + w, s[i..i + p + w])) else None
    else None
  }

  /** `[。！？；]` at i. */
  function ZhSentenceEndAt(s: string, i: nat): Option<Found>
  {
    if i < |s| && Utils.IsZhSentenceEnd(s[i]) then Some(Found(1, [s[i]])) else None
  }

  /** The sentence-end pattern for a language: Chinese marks for "zh",
      Latin marks followed by white space for every other language. */
  function SentenceEnds(s: string, language: string): Matcher
  {
    if language == "zh" then (j: nat) => ZhSentenceEndAt(s, j) else (j: nat) => SentenceEndAt(s, j)
  }

  /** `re.split` with the sentence end captured: text pieces and the ends
      between them. */
  function SentenceParts(text: string, language: string): (r: seq<string>)
    ensures |r| % 2 == 1
  {
    SplitWithDelims(text, 0, 0, SentenceEnds(text, language))
  }

  /** The recombination loop over every part: each text piece joined to
      the sentence end after it, and the last piece, which has none, on
      its own. */
  function Recombine(parts: seq<string>): (r: seq<string>)
    decreases |parts|
  {
    if |parts| == 0 then []
    else if |parts| == 1 then [parts[0]]
    else [parts[0] + parts[1]] + Recombine(parts[2..])
  }

  /** The recombined parts from an even index i: the pair at i, then the
      rest. */
  lemma RecombineFrom(parts: seq<string>, i: nat)
    requires i < |parts|
    ensures Recombine(parts[i..])
         == [if i + 1 < |parts| then parts[i] + parts[i + 1] else parts[i]] + Recombine(parts[Min(i + 2, |parts|)..])
  {
    if i + 1 < |parts| {
      assert parts[i..][2..] == parts[i + 2..];
    } else {
      assert parts[|parts|..] == [];
    }
  }

  /** Recombining loses no text. */
  lemma {:induction false} RecombineKeepsText(parts: seq<string>)
    ensures Flatten(Recombine(parts)) == Flatten(parts)
    decreases |parts|
  {
    if |parts| == 1 {
      assert Flatten([parts[0]]) == parts[0] + Flatten([parts[0]][1..]);
      assert Flatten(parts) == parts[0] + Flatten(parts[1..]);
    } else if |parts| >= 2 {
      var rest := Recombine(parts[2..]);
      RecombineKeepsText(parts[2..]);
      assert ([parts[0] + parts[1]] + rest)[1..] == rest;
      assert parts[1..][1..] == parts[2..];
      assert Flatten(parts) == parts[0] + (parts[1] + Flatten(parts[2..]));
    }
  }

  /** The recombination as the source writes it: the loop runs over
      `range(0, len(parts) - 1, 2)`, which stops before the last part. */
  function RecombineAsWritten(parts: seq<string>): (r: seq<string>)
  {
    if |parts| == 0 then [] else Recombine(parts[..|parts| - 1])
  }

  /** The recombination as written loses exactly the text after the last
      sentence end. */
  lemma RecombineAsWrittenDropsLast(parts: seq<string>)
    requires parts != []
    ensures Flatten(RecombineAsWritten(parts)) + parts[|parts| - 1] == Flatten(parts)
  {
    var init := parts[..|parts| - 1];
    var last := parts[|parts| - 1];
    assert Flatten(RecombineAsWritten(parts)) == Flatten(init) by {
      assert RecombineAsWritten(parts) == Recombine(init);
      RecombineKeepsText(init);
    }
    assert Flatten(init) + last == Flatten(parts) by {
      FlattenSnoc(init, last);
      assert init + [last] == parts;
    }
  }

  predicate NotBlank(s: string) { Strip(s) != "" }

  /** The sentences of the text, each with its ending, blank ones left
      out; the text after the last sentence end is the last sentence. */
  function Sentences(text: string, language: string): seq<string>
  {
    Filter(Recombine(SentenceParts(text, language)), NotBlank)
  }

  /** `split_by_sentences` as written: the text after the last sentence
      end is lost. */
  function SentencesAsWritten(text: string, language: string): seq<string>
  {
    Filter(RecombineAsWritten(SentenceParts(text, language)), NotBlank)
  }

  /** Before blank sentences are dropped, the sentences concatenate back
      to the text. */
  lemma SentencesKeepText(text: string, language: string)
    ensures Flatten(Recombine(SentenceParts(text, language))) == text
  {
    RecombineKeepsText(SentenceParts(text, language));
    SplitWithDelimsFacts(text, 0, 0, SentenceEnds(text, language));
    assert text[0..] == text;
  }

  lemma NotBlankOfVisible(s: string, k: nat)
    requires k < |s| && !IsSpace(s[k])
    ensures NotBlank(s)
  {
    StripByEmpty(s, IsSpace);
  }

  /** A text "a。b" whose last sentence b has no closing mark splits into
      a, the mark and b. */
  lemma TwoSentenceParts(a: string, b: string)
    requires Utils.NoneSatisfy(a, Utils.IsZhSentenceEnd) && Utils.NoneSatisfy(b, Utils.IsZhSentenceEnd)
    ensures SentenceParts(a + "。" + b, "zh") == [a, "。", b]
  {
    var s := a + "。" + b;
    var m := SentenceEnds(s, "zh");
    var n := |a|;
    assert s[n] == '。' && s[..n] == a && s[n + 1..] == b && s[n..n + 1] == "。";
    forall j | 0 <= j < n ensures !Hit(s, j, m) {
      assert s[j] == a[j];
    }
    forall j | n + 1 <= j < |s| ensures !Hit(s, j, m) {
      assert s[j] == b[j - n - 1];
    }
    SplitWithDelimsSkip(s, 0, 0, n, m);
    assert Hit(s, n, m) && m(n).value.len == 1;
    SplitWithDelimsSkip(s, n + 1, n + 1, |s|, m);
  }

  /** The finding in `split_by_sentences`: for any last sentence b without
      a closing mark, the text "a。b" loses b as written, and keeps it when
      every part is recombined. */
  lemma TrailingSentenceLost(a: string, b: string)
    requires Utils.NoneSatisfy(a, Utils.IsZhSentenceEnd) && Utils.NoneSatisfy(b, Utils.IsZhSentenceEnd)
    requires NotBlank(b)
    ensures SentencesAsWritten(a + "。" + b, "zh") == [a + "。"]
    ensures Sentences(a + "。" + b, "zh") == [a + "。", b]
  {
    TwoSentenceParts(a, b);
    RecombineTwo(a, "。", b);
    var first := a + "。";
    assert first[|a|] == '。';
    NotBlankOfVisible(first, |a|);
    FilterVisible(first, b);
  }

  lemma RecombineTwo(a: string, mark: string, b: string)
    ensures Recombine([a, mark, b]) == [a + mark, b]
    ensures RecombineAsWritten([a, mark, b]) == [a + mark]
  {
    var parts := [a, mark, b];
    assert parts[2..] == [b] && parts[..2] == [a, mark] && parts[..2][2..] == [];
    assert Recombine(parts) == [a + mark] + Recombine([b]);
    assert Recombine(parts[..2]) == [a + mark] + Recombine([]);
  }

  lemma FilterVisible(x: string, y: string)
    requires NotBlank(x) && NotBlank(y)
    ensures Filter([x], NotBlank) == [x] && Filter([x, y], NotBlank) == [x, y]
  {
    assert Filter([y], NotBlank) == [y] + Filter([], NotBlank);
    assert [x, y][1..] == [y];
    assert [x][1..] == [];
  }

  // ---------------------------------------------------------------------
  // Greedy packing of paragraphs or sentences into chunks
  // ---------------------------------------------------------------------

  /** The packing loop's state: the chunks so far and the open chunk. */
  datatype Pack = Pack(chunks: seq<string>, current: string)

  /** `encoding.decode(encoding.encode(prev)[-overlap:])` for overlap > 0:
      the text of the last overlap tokens of prev. */
  function OverlapText(enc: Encoding, prev: string, overlap: nat): string
  {
    enc.decode(PyTail(enc.encode(prev), overlap))
  }

  /** One iteration: a blank item is skipped; otherwise it joins the open
      chunk if the result fits, or the open chunk is closed and a new one
      starts with the item, after the overlap text when there is one. */
  function PackStep(st: Pack, raw: string, sep: string, enc: Encoding, maxTokens: int, overlap: int): Pack
  {
    var item := Strip(raw);
    if item == "" then st
    else
      var test := if st.current != "" then st.current + sep + item else item;
      if CountTokens(enc, test) <= maxTokens then Pack(st.chunks, test)
      else
        var chunks := if st.current != "" then st.chunks + [st.current] else st.chunks;
        if chunks != [] && overlap > 0 then Pack(chunks, OverlapText(enc, chunks[|chunks| - 1], overlap) + sep + item)
        else Pack(chunks, item)
  }

  function PackAll(items: seq<string>, sep: string, enc: Encoding, maxTokens: int, overlap: int): Pack
    decreases |items|
  {
    if items == [] then Pack([], "")
    else PackStep(PackAll(items[..|items| - 1], sep, enc, maxTokens, overlap), items[|items| - 1],
                  sep, enc, maxTokens, overlap)
  }

  /** The chunks of the packing loop, the last open chunk included. */
  function Packed(items: seq<string>, sep: string, enc: Encoding, maxTokens: int, overlap: int): seq<string>
  {
    var st := PackAll(items, sep, enc, maxTokens, overlap);
    if st.current != "" then st.chunks + [st.current] else st.chunks
  }

  lemma {:induction false} StripNonBlankSnoc(items: seq<string>, x: string)
    ensures Utils.StripNonBlank(items + [x]) ==
            Utils.StripNonBlank(items) + (if Strip(x) != "" then [Strip(x)] else [])
    decreases |items|
  {
    if items != [] {
      assert (items + [x])[1..] == items[1..] + [x];
      StripNonBlankSnoc(items[1..], x);
    } else {
      assert [x][1..] == [];
    }
  }

  /** What packing keeps for any overlap, with kept the items with
      content so far: nothing is open while there are none; afterwards a
      chunk is open, fewer chunks are closed than there are kept items,
      and no closed chunk is empty. */
  ghost predicate PackInvariant(st: Pack, kept: seq<string>)
  {
    && (kept == [] ==> st == Pack([], ""))
    && (kept != [] ==> st.current != "" && |st.chunks| < |kept|)
    && (forall k :: 0 <= k < |st.chunks| ==> st.chunks[k] != "")
  }

  lemma PackStepKeeps(st: Pack, kept: seq<string>, x: string, sep: string, enc: Encoding, maxTokens: int, overlap: int)
    requires PackInvariant(st, kept)
    ensures PackInvariant(PackStep(st, x, sep, enc, maxTokens, overlap),
                          kept + (if Strip(x) != "" then [Strip(x)] else []))
  {
  }

  lemma {:induction false} PackAllFacts(items: seq<string>, sep: string, enc: Encoding, maxTokens: int, overlap: int)
    ensures PackInvariant(PackAll(items, sep, enc, maxTokens, overlap), Utils.StripNonBlank(items))
    decreases |items|
  {
    if items != [] {
      var init := items[..|items| - 1];
      var x := items[|items| - 1];
      assert init + [x] == items;
      PackAllFacts(init, sep, enc, maxTokens, overlap);
      StripNonBlankSnoc(init, x);
      PackStepKeeps(PackAll(init, sep, enc, maxTokens, overlap), Utils.StripNonBlank(init), x,
                    sep, enc, maxTokens, overlap);
    }
  }

  /** Every chunk fits the limit or is one of the kept items. */
  ghost predicate FitOrSingle(cs: seq<string>, kept: seq<string>, enc: Encoding, maxTokens: int)
  {
    forall k :: 0 <= k < |cs| ==> CountTokens(enc, cs[k]) <= maxTokens || cs[k] in kept
  }

  /** Without overlap: the closed chunks and the open one, joined by the
      separator, are the kept items joined by it, and every chunk fits the
      limit unless it is a single item. */
  ghost predicate NoOverlapInvariant(st: Pack, kept: seq<string>, sep: string, enc: Encoding, maxTokens: int)
  {
    kept != [] ==>
      && Join(st.chunks + [st.current], sep) == Join(kept, sep)
      && FitOrSingle(st.chunks + [st.current], kept, enc, maxTokens)
  }

  /** Growing the open chunk by a fitting text, or closing it and opening
      one with the new item, keeps every chunk fitting or single. */
  lemma FitOrSingleStep(chunks: seq<string>, cur: string, kept: seq<string>, c: string, item: string,
                        enc: Encoding, maxTokens: int, close: bool)
    requires FitOrSingle(chunks + [cur], kept, enc, maxTokens)
    requires close ==> c == item
    requires !close ==> CountTokens(enc, c) <= maxTokens
    ensures FitOrSingle((if close then chunks + [cur] else chunks) + [c], kept + [item], enc, maxTokens)
  {
    var old_ := chunks + [cur];
    var cs := if close then old_ else chunks;
    forall k | 0 <= k < |cs| + 1
      ensures CountTokens(enc, (cs + [c])[k]) <= maxTokens || (cs + [c])[k] in kept + [item]
    {
      if k < |cs| {
        assert (cs + [c])[k] == old_[k];
        assert old_[k] in kept ==> old_[k] in kept + [item];
      }
    }
  }

  /** Extending the open chunk by the item, or closing it and opening one
      with the item, keeps the joined text equal to the joined items. */
  lemma JoinStep(chunks: seq<string>, cur: string, kept: seq<string>, item: string, sep: string, close: bool)
    requires kept != [] && Join(chunks + [cur], sep) == Join(kept, sep)
    ensures close ==> Join((chunks + [cur]) + [item], sep) == Join(kept + [item], sep)
    ensures !close ==> Join(chunks + [cur + sep + item], sep) == Join(kept + [item], sep)
  {
    JoinSnoc(kept, item, sep);
    JoinSnoc(chunks + [cur], item, sep);
    if chunks == [] {
      assert chunks + [cur] == [cur];
      assert chunks + [cur + sep + item] == [cur + sep + item];
    } else {
      var j := Join(chunks, sep);
      JoinSnoc(chunks, cur, sep);
      JoinSnoc(chunks, cur + sep + item, sep);
      assert j + sep + (cur + sep + item) == j + sep + cur + sep + item;
    }
  }

  lemma PackStepNoOverlap(st: Pack, kept: seq<string>, x: string, sep: string, enc: Encoding, maxTokens: int, overlap: int)
    requires overlap <= 0
    requires PackInvariant(st, kept) && NoOverlapInvariant(st, kept, sep, enc, maxTokens)
    ensures NoOverlapInvariant(PackStep(st, x, sep, enc, maxTokens, overlap),
                               kept + (if Strip(x) != "" then [Strip(x)] else []), sep, enc, maxTokens)
  {
    var item := Strip(x);
    if item == "" {
      assert kept + [] == kept;
    } else if kept == [] {
      assert PackStep(st, x, sep, enc, maxTokens, overlap) == Pack([], item);
      assert kept + [item] == [item];
      assert [] + [item] == [item];
    } else {
      var test := st.current + sep + item;
      var close := CountTokens(enc, test) > maxTokens;
      JoinStep(st.chunks, st.current, kept, item, sep, close);
      if close {
        assert PackStep(st, x, sep, enc, maxTokens, overlap) == Pack(st.chunks + [st.current], item);
        FitOrSingleStep(st.chunks, st.current, kept, item, item, enc, maxTokens, close);
      } else {
        assert PackStep(st, x, sep, enc, maxTokens, overlap) == Pack(st.chunks, test);
        FitOrSingleStep(st.chunks, st.current, kept, test, item, enc, maxTokens, close);
      }
    }
  }

  lemma {:induction false} PackAllNoOverlap(items: seq<string>, sep: string, enc: Encoding, maxTokens: int, overlap: int)
    requires overlap <= 0
    ensures NoOverlapInvariant(PackAll(items, sep, enc, maxTokens, overlap), Utils.StripNonBlank(items),
                               sep, enc, maxTokens)
    decreases |items|
  {
    if items != [] {
      var init := items[..|items| - 1];
      var x := items[|items| - 1];
      assert init + [x] == items;
      PackAllFacts(init, sep, enc, maxTokens, overlap);
      PackAllNoOverlap(init, sep, enc, maxTokens, overlap);
      StripNonBlankSnoc(init, x);
      PackStepNoOverlap(PackAll(init, sep, enc, maxTokens, overlap), Utils.StripNonBlank(init), x,
                        sep, enc, maxTokens, overlap);
    }
  }

  /** The packed chunks: none exactly when no item has content, never more
      than the items with content, and none empty. */
  lemma PackedFacts(items: seq<string>, sep: string, enc: Encoding, maxTokens: int, overlap: int)
    ensures var r := Packed(items, sep, enc, maxTokens, overlap);
            var kept := Utils.StripNonBlank(items);
            && (r == [] <==> kept == [])
            && |r| <= |kept|
            && forall k :: 0 <= k < |r| ==> r[k] != ""
  {
    PackAllFacts(items, sep, enc, maxTokens, overlap);
  }

  /** Without overlap, packing loses and adds nothing but separators: the
      chunks joined by the separator are the stripped items with content
      joined by it; and a chunk over the limit is a single item. */
  lemma PackedNoOverlap(items: seq<string>, sep: string, enc: Encoding, maxTokens: int, overlap: int)
    requires overlap <= 0
    ensures var kept := Utils.StripNonBlank(items);
            && Join(Packed(items, sep, enc, maxTokens, overlap), sep) == Join(kept, sep)
            && FitOrSingle(Packed(items, sep, enc, maxTokens, overlap), kept, enc, maxTokens)
  {
    PackAllFacts(items, sep, enc, maxTokens, overlap);
    PackAllNoOverlap(items, sep, enc, maxTokens, overlap);
  }

  /** What chunk `k` starts with before its own items: nothing for the first
      chunk or without overlap, else the overlap text of the chunk before it
      and the separator. */
  function Lead(cs: seq<string>, k: nat, sep: string, enc: Encoding, overlap: int): string
    requires k < |cs|
  {
    if k == 0 || overlap <= 0 then "" else OverlapText(enc, cs[k - 1], overlap) + sep
  }

  /** Chunk `k` is its lead followed by its non-empty group joined by the
      separator, and fits the limit when it took more than one item. */
  ghost predicate GroupedAt(cs: seq<string>, g: seq<seq<string>>, k: nat, sep: string,
                            enc: Encoding, maxTokens: int, overlap: int)
    requires k < |cs| && k < |g|
  {
    && g[k] != []
    && cs[k] == Lead(cs, k, sep, enc, overlap) + Join(g[k], sep)
    && (|g[k]| > 1 ==> CountTokens(enc, cs[k]) <= maxTokens)
  }

  /** The chunks `cs` split the kept items into consecutive non-empty groups
      `g`, one per chunk, each chunk as `GroupedAt` says. */
  ghost predicate Grouped(cs: seq<string>, g: seq<seq<string>>, kept: seq<string>, sep: string,
                          enc: Encoding, maxTokens: int, overlap: int)
  {
    && |g| == |cs|
    && Flatten(g) == kept
    && (forall k :: 0 <= k < |g| ==> GroupedAt(cs, g, k, sep, enc, maxTokens, overlap))
  }

  /** A chunk keeps its shape when neither it, its group nor the chunk
      before it changes. */
  lemma GroupedAtSame(cs: seq<string>, g: seq<seq<string>>, cs': seq<string>, g': seq<seq<string>>, k: nat,
                      sep: string, enc: Encoding, maxTokens: int, overlap: int)
    requires k < |cs| && k < |g| && k < |cs'| && k < |g'|
    requires cs'[k] == cs[k] && g'[k] == g[k] && (k > 0 ==> cs'[k - 1] == cs[k - 1])
    requires GroupedAt(cs, g, k, sep, enc, maxTokens, overlap)
    ensures GroupedAt(cs', g', k, sep, enc, maxTokens, overlap)
  {
    assert Lead(cs, k, sep, enc, overlap) == Lead(cs', k, sep, enc, overlap);
  }

  /** Appending an item to a chunk appends it to the chunk's group. */
  lemma ExtendChunk(lead: string, cur: string, grp: seq<string>, item: string, sep: string)
    requires grp != [] && cur == lead + Join(grp, sep)
    ensures cur + sep + item == lead + Join(grp + [item], sep)
  {
    JoinSnoc(grp, item, sep);
  }

  /** Extending the open chunk with one more item keeps the grouping. */
  lemma GroupedExtend(chunks: seq<string>, cur: string, g0: seq<seq<string>>, grp: seq<string>, kept: seq<string>,
                      item: string, sep: string, enc: Encoding, maxTokens: int, overlap: int)
    requires Grouped(chunks + [cur], g0 + [grp], kept, sep, enc, maxTokens, overlap)
    requires CountTokens(enc, cur + sep + item) <= maxTokens
    ensures Grouped(chunks + [cur + sep + item], g0 + [grp + [item]], kept + [item], sep, enc, maxTokens, overlap)
  {
    var cs := chunks + [cur];
    var cs' := chunks + [cur + sep + item];
    var g := g0 + [grp];
    var g' := g0 + [grp + [item]];
    var n := |chunks|;
    assert Flatten(g') == kept + [item] by {
      FlattenSnoc(g0, grp);
      FlattenSnoc(g0, grp + [item]);
    }
    forall k | 0 <= k < |g'|
      ensures GroupedAt(cs', g', k, sep, enc, maxTokens, overlap)
    {
      assert GroupedAt(cs, g, k, sep, enc, maxTokens, overlap);
      if k < n {
        GroupedAtSame(cs, g, cs', g', k, sep, enc, maxTokens, overlap);
      } else {
        assert cs[n] == cur && g[n] == grp && cs'[n] == cur + sep + item && g'[n] == grp + [item];
        assert Lead(cs, n, sep, enc, overlap) == Lead(cs', n, sep, enc, overlap);
        ExtendChunk(Lead(cs, n, sep, enc, overlap), cur, grp, item, sep);
      }
    }
  }

  /** Closing the open chunk and opening one with the next item keeps the
      grouping. */
  lemma GroupedClose(cs: seq<string>, g: seq<seq<string>>, kept: seq<string>, next: string, item: string,
                     sep: string, enc: Encoding, maxTokens: int, overlap: int)
    requires cs != [] && Grouped(cs, g, kept, sep, enc, maxTokens, overlap)
    requires next == if overlap > 0 then OverlapText(enc, cs[|cs| - 1], overlap) + sep + item else item
    ensures Grouped(cs + [next], g + [[item]], kept + [item], sep, enc, maxTokens, overlap)
  {
    var cs' := cs + [next];
    var g' := g + [[item]];
    var n := |cs|;
    FlattenSnoc(g, [item]);
    forall k | 0 <= k < |g'|
      ensures GroupedAt(cs', g', k, sep, enc, maxTokens, overlap)
    {
      if k < n {
        assert GroupedAt(cs, g, k, sep, enc, maxTokens, overlap);
        GroupedAtSame(cs, g, cs', g', k, sep, enc, maxTokens, overlap);
      } else {
        assert cs'[n - 1] == cs[n - 1] && cs'[n] == next && g'[n] == [item];
        assert Join([item], sep) == item;
      }
    }
  }

  /** One step of the packing loop keeps the grouping, for any overlap. */
  lemma PackStepGroups(st: Pack, kept: seq<string>, g: seq<seq<string>>, x: string, sep: string,
                       enc: Encoding, maxTokens: int, overlap: int) returns (g': seq<seq<string>>)
    requires PackInvariant(st, kept)
    requires kept != [] ==> Grouped(st.chunks + [st.current], g, kept, sep, enc, maxTokens, overlap)
    ensures var st' := PackStep(st, x, sep, enc, maxTokens, overlap);
            var kept' := kept + (if Strip(x) != "" then [Strip(x)] else []);
            kept' != [] ==> Grouped(st'.chunks + [st'.current], g', kept', sep, enc, maxTokens, overlap)
  {
    var item := Strip(x);
    if item == "" {
      assert kept + [] == kept;
      g' := g;
    } else if kept == [] {
      assert PackStep(st, x, sep, enc, maxTokens, overlap) == Pack([], item);
      assert kept + [item] == [item];
      g' := [[item]];
      assert Flatten(g') == [item] + Flatten(g'[1..]);
      assert Join([item], sep) == item;
    } else {
      var test := st.current + sep + item;
      if CountTokens(enc, test) <= maxTokens {
        assert PackStep(st, x, sep, enc, maxTokens, overlap) == Pack(st.chunks, test);
        assert g == g[..|g| - 1] + [g[|g| - 1]];
        GroupedExtend(st.chunks, st.current, g[..|g| - 1], g[|g| - 1], kept, item, sep, enc, maxTokens, overlap);
        g' := g[..|g| - 1] + [g[|g| - 1] + [item]];
      } else {
        var next := if overlap > 0 then OverlapText(enc, st.current, overlap) + sep + item else item;
        assert PackStep(st, x, sep, enc, maxTokens, overlap) == Pack(st.chunks + [st.current], next);
        assert (st.chunks + [st.current])[|st.chunks|] == st.current;
        GroupedClose(st.chunks + [st.current], g, kept, next, item, sep, enc, maxTokens, overlap);
        assert st.chunks + [st.current] + [next] == (st.chunks + [st.current]) + [next];
        g' := g + [[item]];
      }
    }
  }

  lemma {:induction false} PackAllGroups(items: seq<string>, sep: string, enc: Encoding, maxTokens: int, overlap: int)
    returns (g: seq<seq<string>>)
    ensures var st := PackAll(items, sep, enc, maxTokens, overlap);
            var kept := Utils.StripNonBlank(items);
            kept != [] ==> Grouped(st.chunks + [st.current], g, kept, sep, enc, maxTokens, overlap)
    decreases |items|
  {
    if items == [] {
      g := [];
    } else {
      var init := items[..|items| - 1];
      var x := items[|items| - 1];
      assert init + [x] == items;
      PackAllFacts(init, sep, enc, maxTokens, overlap);
      var g0 := PackAllGroups(init, sep, enc, maxTokens, overlap);
      StripNonBlankSnoc(init, x);
      g := PackStepGroups(PackAll(init, sep, enc, maxTokens, overlap), Utils.StripNonBlank(init), g0, x,
                          sep, enc, maxTokens, overlap);
    }
  }

  /** For any overlap, the packed chunks split the items with content, in
      order, into consecutive non-empty groups, one per chunk: the first
      chunk is its group joined by the separator, every later chunk is the
      overlap text of the chunk before it, the separator and its group
      joined by the separator (no overlap text when the overlap is not
      positive), and a chunk that took more than one item fits the limit. */
  lemma PackedGroups(items: seq<string>, sep: string, enc: Encoding, maxTokens: int, overlap: int)
    ensures exists g :: Grouped(Packed(items, sep, enc, maxTokens, overlap), g, Utils.StripNonBlank(items),
                                sep, enc, maxTokens, overlap)
  {
    var kept := Utils.StripNonBlank(items);
    PackAllFacts(items, sep, enc, maxTokens, overlap);
    var g := PackAllGroups(items, sep, enc, maxTokens, overlap);
    if kept == [] {
      assert Packed(items, sep, enc, maxTokens, overlap) == [];
      assert Grouped([], [], kept, sep, enc, maxTokens, overlap);
    } else {
      assert Grouped(Packed(items, sep, enc, maxTokens, overlap), g, kept, sep, enc, maxTokens, overlap);
    }
  }

  /** With a positive overlap, every chunk after the first starts with the
      overlap text of the chunk before it and the separator. */
  lemma PackedOverlapPrefix(items: seq<string>, sep: string, enc: Encoding, maxTokens: int, overlap: int)
    requires overlap > 0
    ensures var r := Packed(items, sep, enc, maxTokens, overlap);
            forall k :: 0 < k < |r| ==> OverlapText(enc, r[k - 1], overlap) + sep <= r[k]
  {
    var r := Packed(items, sep, enc, maxTokens, overlap);
    PackedGroups(items, sep, enc, maxTokens, overlap);
    var g :| Grouped(r, g, Utils.StripNonBlank(items), sep, enc, maxTokens, overlap);
    forall k | 0 < k < |r|
      ensures OverlapText(enc, r[k - 1], overlap) + sep <= r[k]
    {
      assert GroupedAt(r, g, k, sep, enc, maxTokens, overlap);
    }
  }

  // ---------------------------------------------------------------------
  // Token windows: the last resort
  // ---------------------------------------------------------------------

  /** The values of `i` in `while i < n: ...; i += step`, from i. */
  function WindowStarts(n: nat, i: nat, step: nat): (r: seq<nat>)
    requires step > 0
    ensures forall k :: 0 <= k < |r| ==> i <= r[k] < n
    decreases n - i
  {
    if i >= n then [] else [i] + WindowStarts(n, i + step, step)
  }

  /** `tokens[j:j + max_tokens]` */
  function Window(tokens: seq<nat>, maxTokens: int): nat -> seq<nat>
  {
    (j: nat) => PySlice(tokens, j, j + maxTokens)
  }

  function TokenWindows(tokens: seq<nat>, maxTokens: int, step: nat): seq<seq<nat>>
    requires step > 0
  {
    Map(WindowStarts(|tokens|, 0, step), Window(tokens, maxTokens))
  }

  /** The decoded windows from position i. */
  function WindowTexts(enc: Encoding, tokens: seq<nat>, i: nat, maxTokens: int, step: nat): seq<string>
    requires step > 0
    decreases |tokens| - i
  {
    if i >= |tokens| then [] else [enc.decode(PySlice(tokens, i, i + maxTokens))] + WindowTexts(enc, tokens, i + step, maxTokens, step)
  }

  /** One more window decoded and appended leaves the rest to do. */
  lemma WindowTextsStep(done: seq<string>, enc: Encoding, tokens: seq<nat>, i: nat, maxTokens: int, step: nat)
    requires step > 0 && i < |tokens|
    ensures done + WindowTexts(enc, tokens, i, maxTokens, step)
         == (done + [enc.decode(PySlice(tokens, i, i + maxTokens))]) + WindowTexts(enc, tokens, i + step, maxTokens, step)
  {
    var rest := WindowTexts(enc, tokens, i + step, maxTokens, step);
    var x := enc.decode(PySlice(tokens, i, i + maxTokens));
    assert WindowTexts(enc, tokens, i, maxTokens, step) == [x] + rest;
    assert done + ([x] + rest) == (done + [x]) + rest;
  }

  /** The window texts are the token windows, decoded. */
  lemma {:induction false} WindowTextsDecoded(enc: Encoding, tokens: seq<nat>, i: nat, maxTokens: int, step: nat)
    requires step > 0
    ensures WindowTexts(enc, tokens, i, maxTokens, step)
         == Map(Map(WindowStarts(|tokens|, i, step), Window(tokens, maxTokens)), enc.decode)
    decreases |tokens| - i
  {
    if i < |tokens| {
      WindowTextsDecoded(enc, tokens, i + step, maxTokens, step);
      DecodedWindowsCons(enc, tokens, i, maxTokens, step);
    }
  }

  /** The decoded windows from i are the window at i, then those from i + step. */
  lemma DecodedWindowsCons(enc: Encoding, tokens: seq<nat>, i: nat, maxTokens: int, step: nat)
    requires step > 0 && i < |tokens|
    ensures Map(Map(WindowStarts(|tokens|, i, step), Window(tokens, maxTokens)), enc.decode)
         == [enc.decode(PySlice(tokens, i, i + maxTokens))]
            + Map(Map(WindowStarts(|tokens|, i + step, step), Window(tokens, maxTokens)), enc.decode)
  {
    var rest := WindowStarts(|tokens|, i + step, step);
    var win := Window(tokens, maxTokens);
    assert WindowStarts(|tokens|, i, step) == [i] + rest;
    MapCons(i, rest, win);
    MapCons(win(i), Map(rest, win), enc.decode);
  }

  /** The windows decoded; `None` when the loop cannot advance over
      non-empty tokens, where the source never returns. */
  function TokenChunks(enc: Encoding, text: string, maxTokens: int, overlap: int): Option<seq<string>>
  {
    var tokens := enc.encode(text);
    if tokens == [] then Some([])
    else if maxTokens - overlap <= 0 then None
    else Some(WindowTexts(enc, tokens, 0, maxTokens, maxTokens - overlap))
  }

  /** Every position from i on lies within step of a window start. */
  lemma {:induction false} WindowStartsCover(n: nat, i: nat, step: nat, t: nat)
    requires step > 0 && i <= t < n
    ensures exists k :: 0 <= k < |WindowStarts(n, i, step)| &&
              WindowStarts(n, i, step)[k] <= t < WindowStarts(n, i, step)[k] + step
    decreases n - i
  {
    var r := WindowStarts(n, i, step);
    if t >= i + step {
      WindowStartsCover(n, i + step, step, t);
      var k :| 0 <= k < |r[1..]| && r[1..][k] <= t < r[1..][k] + step;
      assert r[k + 1] == r[1..][k];
    } else {
      assert r[0] == i;
    }
  }

  /** Each window is the slice of up to max_tokens tokens at its start,
      and so holds between one and max_tokens of them. */
  lemma TokenWindowsBounded(tokens: seq<nat>, maxTokens: int, step: nat)
    requires step > 0 && maxTokens > 0
    ensures var w := TokenWindows(tokens, maxTokens, step);
            var starts := WindowStarts(|tokens|, 0, step);
            forall k :: 0 <= k < |w| ==>
              0 < |w[k]| <= maxTokens && w[k] == tokens[starts[k]..Min(starts[k] + maxTokens, |tokens|)]
  {
    var w := TokenWindows(tokens, maxTokens, step);
    var starts := WindowStarts(|tokens|, 0, step);
    forall k | 0 <= k < |w|
      ensures 0 < |w[k]| <= maxTokens && w[k] == tokens[starts[k]..Min(starts[k] + maxTokens, |tokens|)]
    {
      assert w[k] == PySlice(tokens, starts[k], starts[k] + maxTokens);
    }
  }

  /** Token t is in some window, at its offset from the window's start. */
  ghost predicate Covered(w: seq<seq<nat>>, starts: seq<nat>, tokens: seq<nat>, t: nat)
    requires |w| == |starts|
  {
    exists k :: 0 <= k < |w| && starts[k] <= t < starts[k] + |w[k]| && t < |tokens| && w[k][t - starts[k]] == tokens[t]
  }

  /** When the step is at most max_tokens (the overlap is not negative),
      every token appears in some window, at its offset from the window's
      start. */
  lemma TokenWindowsCover(tokens: seq<nat>, maxTokens: int, step: nat)
    requires 0 < step <= maxTokens
    ensures forall t: nat :: t < |tokens| ==>
              Covered(TokenWindows(tokens, maxTokens, step), WindowStarts(|tokens|, 0, step), tokens, t)
  {
    forall t: nat | t < |tokens|
      ensures Covered(TokenWindows(tokens, maxTokens, step), WindowStarts(|tokens|, 0, step), tokens, t)
    {
      TokenCovered(tokens, maxTokens, step, t);
    }
  }

  /** The window from s holds token t when t is less than max_tokens past s. */
  lemma WindowAt(tokens: seq<nat>, maxTokens: int, s: nat, t: nat)
    requires s <= t < |tokens| && t < s + maxTokens
    ensures var r := Window(tokens, maxTokens)(s);
            t - s < |r| && r[t - s] == tokens[t]
  {
    var e := Min(s + maxTokens, |tokens|);
    var r := PySlice(tokens, s, s + maxTokens);
    assert r == tokens[s..e];
  }

  /** Token t lies in the window that starts at most one step before it. */
  lemma TokenCovered(tokens: seq<nat>, maxTokens: int, step: nat, t: nat)
    requires 0 < step <= maxTokens && t < |tokens|
    ensures Covered(TokenWindows(tokens, maxTokens, step), WindowStarts(|tokens|, 0, step), tokens, t)
  {
    var starts := WindowStarts(|tokens|, 0, step);
    var w := Map(starts, Window(tokens, maxTokens));
    WindowStartsCover(|tokens|, 0, step, t);
    var k :| 0 <= k < |starts| && starts[k] <= t < starts[k] + step;
    WindowAt(tokens, maxTokens, starts[k], t);
    assert w[k] == Window(tokens, maxTokens)(starts[k]);
    assert Covered(w, starts, tokens, t);
  }

  /** Without overlap the windows tile the tokens from i. */
  lemma {:induction false} WindowsTileFrom(tokens: seq<nat>, i: nat, maxTokens: nat)
    requires maxTokens > 0 && i <= |tokens|
    ensures Flatten(Map(WindowStarts(|tokens|, i, maxTokens), Window(tokens, maxTokens))) == tokens[i..]
    decreases |tokens| - i
  {
    var starts := WindowStarts(|tokens|, i, maxTokens);
    var w := Map(starts, Window(tokens, maxTokens));
    if i < |tokens| {
      var e := Min(i + maxTokens, |tokens|);
      assert starts[1..] == WindowStarts(|tokens|, i + maxTokens, maxTokens);
      if i + maxTokens <= |tokens| {
        WindowsTileFrom(tokens, i + maxTokens, maxTokens);
      } else {
        assert starts[1..] == [];
      }
      assert w[1..] == Map(starts[1..], Window(tokens, maxTokens));
      assert w[0] == tokens[i..e];
      assert tokens[i..] == tokens[i..e] + tokens[e..];
    }
  }

  /** Without overlap the windows concatenate back to the tokens. */
  lemma TokenWindowsTile(tokens: seq<nat>, maxTokens: nat)
    requires maxTokens > 0
    ensures Flatten(TokenWindows(tokens, maxTokens, maxTokens)) == tokens
  {
    WindowsTileFrom(tokens, 0, maxTokens);
  }

  // ---------------------------------------------------------------------
  // `chunk_text_recursive`
  // ---------------------------------------------------------------------

  /** The chunks of a text, given how it splits into sentences: the text
      itself when it fits; else its paragraphs packed, when there are
      several; else its sentences packed, when there are several; else its
      token windows. Both the CJK and the other branch of the source split
      paragraphs at the same pattern. */
  function ChunkTextsOver(enc: Encoding, text: string, sentences: seq<string>, maxTokens: int,
                          overlap: int): Option<seq<string>>
  {
    if CountTokens(enc, text) <= maxTokens then Some([text])
    else if |Paragraphs(text)| > 1 then Some(Packed(Paragraphs(text), "\n\n", enc, maxTokens, overlap))
    else if |sentences| > 1 then Some(Packed(sentences, " ", enc, maxTokens, overlap))
    else TokenChunks(enc, text, maxTokens, overlap)
  }

  /** The chunks with the corrected sentence split, which keeps the text
      after the last sentence end. */
  function ChunkTexts(enc: Encoding, text: string, language: string, maxTokens: int, overlap: int): Option<seq<string>>
  {
    ChunkTextsOver(enc, text, Sentences(text, language), maxTokens, overlap)
  }

  /** The chunks as the source computes them, with `split_by_sentences` as
      written. */
  function ChunkTextsAsWritten(enc: Encoding, text: string, language: string, maxTokens: int,
                               overlap: int): Option<seq<string>>
  {
    ChunkTextsOver(enc, text, SentencesAsWritten(text, language), maxTokens, overlap)
  }

  /** Chunking fails to return exactly when the text is over the limit, has
      no blank line and at most one sentence, and the token loop's step
      `max_tokens - overlap_tokens` is not positive. */
  lemma ChunkTextsOverDiverges(enc: Encoding, text: string, sentences: seq<string>, maxTokens: int,
                               overlap: int)
    ensures ChunkTextsOver(enc, text, sentences, maxTokens, overlap).None? <==>
              && CountTokens(enc, text) > maxTokens
              && (forall j :: !BlankLineAt(text, j))
              && |sentences| <= 1
              && CountTokens(enc, text) > 0
              && maxTokens <= overlap
  {
    ParagraphsFacts(text);
  }

  /** With the corrected sentence split: no return exactly when the text
      is over the limit, has no blank line and at most one sentence, and
      the step is not positive. */
  lemma ChunkTextsDiverges(enc: Encoding, text: string, language: string, maxTokens: int, overlap: int)
    ensures ChunkTexts(enc, text, language, maxTokens, overlap).None? <==>
              && CountTokens(enc, text) > maxTokens
              && (forall j :: !BlankLineAt(text, j))
              && |Sentences(text, language)| <= 1
              && CountTokens(enc, text) > 0
              && maxTokens <= overlap
  {
    ChunkTextsOverDiverges(enc, text, Sentences(text, language), maxTokens, overlap);
  }

  /** The same for the source as written, where the sentence count is
      that of the split that drops the last part. */
  lemma ChunkTextsAsWrittenDiverges(enc: Encoding, text: string, language: string, maxTokens: int,
                                    overlap: int)
    ensures ChunkTextsAsWritten(enc, text, language, maxTokens, overlap).None? <==>
              && CountTokens(enc, text) > maxTokens
              && (forall j :: !BlankLineAt(text, j))
              && |SentencesAsWritten(text, language)| <= 1
              && CountTokens(enc, text) > 0
              && maxTokens <= overlap
  {
    ChunkTextsOverDiverges(enc, text, SentencesAsWritten(text, language), maxTokens, overlap);
  }

  /** Where the two splits part ways: a text "a。b" over the limit,
      without a blank line and with a non-positive token step, makes the
      source loop forever, while the corrected split packs its two
      sentences. */
  lemma TrailingSentenceChangesChunking(enc: Encoding, a: string, b: string, maxTokens: int, overlap: int)
    requires Utils.NoneSatisfy(a, Utils.IsZhSentenceEnd) && Utils.NoneSatisfy(b, Utils.IsZhSentenceEnd)
    requires NotBlank(b)
    requires forall j :: !BlankLineAt(a + "。" + b, j)
    requires CountTokens(enc, a + "。" + b) > maxTokens && CountTokens(enc, a + "。" + b) > 0
    requires maxTokens <= overlap
    ensures ChunkTextsAsWritten(enc, a + "。" + b, "zh", maxTokens, overlap).None?
    ensures ChunkTexts(enc, a + "。" + b, "zh", maxTokens, overlap).Some?
  {
    TrailingSentenceLost(a, b);
    ChunkTextsAsWrittenDiverges(enc, a + "。" + b, "zh", maxTokens, overlap);
    ChunkTextsDiverges(enc, a + "。" + b, "zh", maxTokens, overlap);
  }

  // ---------------------------------------------------------------------
  // `chunk_document`
  // ---------------------------------------------------------------------

  /** A chunk with its position in the document and its metadata. */
  datatype Chunk = Chunk(text: string, chunkId: string, docId: string, language: string, pageNum: nat,
                         startChar: nat, endChar: nat, metadata: map<string, Retriever.Value>)

  /** `f"{i:04d}"`: the decimal digits of i, zero-padded to four. */
  function Pad4(i: nat): (r: string)
    ensures IsDigitString(r) && |r| >= 4
  {
    var d := NatToString(i);
    if |d| < 4 then Repeat('0', 4 - |d|) + d else d
  }

  /** The padding reads back as the number. */
  lemma Pad4Value(i: nat)
    ensures DigitsValue(Pad4(i)) == i
  {
    var d := NatToString(i);
    DigitsValueOfNatToString(i);
    if |d| < 4 {
      DigitsValueLeadingZeros(4 - |d|, d);
    }
  }

  /** `f"{doc_id}_chunk_{i:04d}"` */
  function ChunkId(docId: string, i: nat): string
  {
    docId + "_chunk_" + Pad4(i)
  }

  /** Chunks of one document get different ids. */
  lemma ChunkIdInjective(docId: string, i: nat, j: nat)
    requires ChunkId(docId, i) == ChunkId(docId, j)
    ensures i == j
  {
    var p := docId + "_chunk_";
    assert ChunkId(docId, i)[|p|..] == Pad4(i);
    assert ChunkId(docId, j)[|p|..] == Pad4(j);
    Pad4Value(i);
    Pad4Value(j);
  }

  /** `extract_page_number`: the number of the first `[PAGE n]` marker,
      or 0 without one. */
  function ExtractPageNumber(text: string): nat
  {
    match Utils.ExtractPageNumberFromMarker(text)
    case Some(n) => n
    case None => 0
  }

  /** A chunk that starts with the marker of page n is on page n. */
  lemma PageNumberOfMarker(n: nat, rest: string)
    ensures ExtractPageNumber(Utils.FormatPageMarker(n) + rest) == n
  {
    Utils.MarkerRoundTrip(n, rest);
  }

  /** A chunk without a marker is on page 0. */
  lemma PageNumberWithoutMarker(text: string)
    requires forall j :: 0 <= j <= |text| ==> Utils.MarkerAt(text, j).None?
    ensures ExtractPageNumber(text) == 0
  {
    Utils.ExtractPageNumberFacts(text);
  }

  const ChunkIndexKey := "chunk_index"
  const TotalChunksKey := "total_chunks"
  const TokenCountKey := "token_count"

  /** `{**metadata, "chunk_index": i, "total_chunks": n, "token_count": t}` */
  function ChunkMetadata(metadata: map<string, Retriever.Value>, i: nat, total: nat, tokens: nat): map<string, Retriever.Value>
  {
    metadata + map[ChunkIndexKey := Retriever.VInt(i), TotalChunksKey := Retriever.VInt(total),
                   TokenCountKey := Retriever.VInt(tokens)]
  }

  /** The k-th chunk object of a document whose chunk texts are texts. */
  function ChunkAt(texts: seq<string>, k: nat, docId: string, language: string,
                   metadata: map<string, Retriever.Value>, enc: Encoding): Chunk
    requires k < |texts|
  {
    var start := |Flatten(texts[..k])|;
    Chunk(texts[k], ChunkId(docId, k), docId, language, ExtractPageNumber(texts[k]), start, start + |texts[k]|,
          ChunkMetadata(metadata, k, |texts|, CountTokens(enc, texts[k])))
  }

  /** The k-th chunk object, built from the running character offset. */
  lemma ChunkAtOffset(texts: seq<string>, k: nat, offset: nat, docId: string, language: string,
                      metadata: map<string, Retriever.Value>, enc: Encoding)
    requires k < |texts| && offset == |Flatten(texts[..k])|
    ensures ChunkAt(texts, k, docId, language, metadata, enc)
         == Chunk(texts[k], ChunkId(docId, k), docId, language, ExtractPageNumber(texts[k]), offset,
                  offset + |texts[k]|, ChunkMetadata(metadata, k, |texts|, CountTokens(enc, texts[k])))
    ensures offset + |texts[k]| == |Flatten(texts[..k + 1])|
  {
    FlattenSnoc(texts[..k], texts[k]);
    assert texts[..k + 1] == texts[..k] + [texts[k]];
  }

  /** The chunk objects for the first |cs| texts, and the next one. */
  lemma ChunksOfSnoc(cs: seq<Chunk>, texts: seq<string>, c: Chunk, docId: string, language: string,
                     metadata: map<string, Retriever.Value>, enc: Encoding)
    requires |cs| < |texts| && c == ChunkAt(texts, |cs|, docId, language, metadata, enc)
    requires forall k :: 0 <= k < |cs| ==> cs[k] == ChunkAt(texts, k, docId, language, metadata, enc)
    ensures forall k :: 0 <= k < |cs| + 1 ==> (cs + [c])[k] == ChunkAt(texts, k, docId, language, metadata, enc)
  {
  }

  ghost predicate ChunksOf(cs: seq<Chunk>, texts: seq<string>, docId: string, language: string,
                           metadata: map<string, Retriever.Value>, enc: Encoding)
  {
    |cs| == |texts| && forall k :: 0 <= k < |cs| ==> cs[k] == ChunkAt(texts, k, docId, language, metadata, enc)
  }

  /** The chunk objects have distinct ids. */
  lemma ChunkIdsDistinct(cs: seq<Chunk>, texts: seq<string>, docId: string, language: string,
                         metadata: map<string, Retriever.Value>, enc: Encoding)
    requires ChunksOf(cs, texts, docId, language, metadata, enc)
    ensures forall k, l :: 0 <= k < l < |cs| ==> cs[k].chunkId != cs[l].chunkId
  {
    forall k, l | 0 <= k < l < |cs| ensures cs[k].chunkId != cs[l].chunkId {
      if cs[k].chunkId == cs[l].chunkId {
        assert cs[k] == ChunkAt(texts, k, docId, language, metadata, enc);
        assert cs[l] == ChunkAt(texts, l, docId, language, metadata, enc);
        ChunkIdInjective(docId, k, l);
      }
    }
  }

  /** A chunk's span runs from the length of the texts before it to the
      length of the texts up to and including it. */
  lemma ChunkSpanEnds(texts: seq<string>, k: nat, docId: string, language: string,
                      metadata: map<string, Retriever.Value>, enc: Encoding)
    requires k < |texts|
    ensures ChunkAt(texts, k, docId, language, metadata, enc).startChar == |Flatten(texts[..k])|
    ensures ChunkAt(texts, k, docId, language, metadata, enc).endChar == |Flatten(texts[..k + 1])|
  {
    FlattenSnoc(texts[..k], texts[k]);
    assert texts[..k + 1] == texts[..k] + [texts[k]];
  }

  /** Each chunk starts where the one before it ends. */
  lemma ChunkSpanFollows(texts: seq<string>, k: nat, docId: string, language: string,
                         metadata: map<string, Retriever.Value>, enc: Encoding)
    requires k + 1 < |texts|
    ensures ChunkAt(texts, k, docId, language, metadata, enc).endChar
         == ChunkAt(texts, k + 1, docId, language, metadata, enc).startChar
  {
    ChunkSpanEnds(texts, k, docId, language, metadata, enc);
  }

  /** The character spans of the chunks start at 0, follow each other
      without gap, each as long as its text, and end at the total length
      of the texts. */
  lemma ChunkSpansTile(cs: seq<Chunk>, texts: seq<string>, docId: string, language: string,
                       metadata: map<string, Retriever.Value>, enc: Encoding)
    requires ChunksOf(cs, texts, docId, language, metadata, enc)
    ensures |cs| > 0 ==> cs[0].startChar == 0 && cs[|cs| - 1].endChar == |Flatten(texts)|
    ensures forall k :: 0 <= k < |cs| - 1 ==> cs[k].endChar == cs[k + 1].startChar
    ensures forall k :: 0 <= k < |cs| ==> cs[k].text == texts[k] && cs[k].endChar - cs[k].startChar == |texts[k]|
  {
    forall k | 0 <= k < |cs| - 1 ensures cs[k].endChar == cs[k + 1].startChar {
      assert cs[k] == ChunkAt(texts, k, docId, language, metadata, enc);
      assert cs[k + 1] == ChunkAt(texts, k + 1, docId, language, metadata, enc);
      ChunkSpanFollows(texts, k, docId, language, metadata, enc);
    }
    forall k | 0 <= k < |cs| ensures cs[k].text == texts[k] && cs[k].endChar - cs[k].startChar == |texts[k]| {
      assert cs[k] == ChunkAt(texts, k, docId, language, metadata, enc);
    }
    if |cs| > 0 {
      var n := |cs| - 1;
      assert cs[n] == ChunkAt(texts, n, docId, language, metadata, enc);
      ChunkSpanEnds(texts, n, docId, language, metadata, enc);
      assert texts[..n + 1] == texts;
      assert cs[0] == ChunkAt(texts, 0, docId, language, metadata, enc);
    }
  }

  /** Each chunk's metadata keeps every caller key but the three it sets,
      which give the chunk's index, the number of chunks and its token
      count. */
  lemma ChunkMetadataFacts(cs: seq<Chunk>, texts: seq<string>, docId: string, language: string,
                           metadata: map<string, Retriever.Value>, enc: Encoding)
    requires ChunksOf(cs, texts, docId, language, metadata, enc)
    ensures forall k :: 0 <= k < |cs| ==>
              && cs[k].metadata[ChunkIndexKey] == Retriever.VInt(k)
              && cs[k].metadata[TotalChunksKey] == Retriever.VInt(|cs|)
              && cs[k].metadata[TokenCountKey] == Retriever.VInt(CountTokens(enc, texts[k]))
              && forall key :: key in metadata && key !in {ChunkIndexKey, TotalChunksKey, TokenCountKey} ==>
                   key in cs[k].metadata && cs[k].metadata[key] == metadata[key]
  {
    forall k | 0 <= k < |cs|
      ensures && cs[k].metadata[ChunkIndexKey] == Retriever.VInt(k)
              && cs[k].metadata[TotalChunksKey] == Retriever.VInt(|cs|)
              && cs[k].metadata[TokenCountKey] == Retriever.VInt(CountTokens(enc, texts[k]))
              && forall key :: key in metadata && key !in {ChunkIndexKey, TotalChunksKey, TokenCountKey} ==>
                   key in cs[k].metadata && cs[k].metadata[key] == metadata[key]
    {
      assert cs[k] == ChunkAt(texts, k, docId, language, metadata, enc);
      ChunkMetadataKeys(metadata, k, |cs|, CountTokens(enc, texts[k]));
    }
  }

  /** The three keys set, and every other caller key kept. */
  lemma ChunkMetadataKeys(metadata: map<string, Retriever.Value>, i: nat, total: nat, tokens: nat)
    ensures var m := ChunkMetadata(metadata, i, total, tokens);
            && m[ChunkIndexKey] == Retriever.VInt(i)
            && m[TotalChunksKey] == Retriever.VInt(total)
            && m[TokenCountKey] == Retriever.VInt(tokens)
            && forall key :: key in metadata && key !in {ChunkIndexKey, TotalChunksKey, TokenCountKey} ==>
                 key in m && m[key] == metadata[key]
  {
    assert ChunkIndexKey[6] == 'i' && TotalChunksKey[6] == 'c' && TokenCountKey[6] == 'c';
    assert TotalChunksKey[0] == 't' && TokenCountKey[1] == 'o' && TotalChunksKey[1] == 'o';
    assert TotalChunksKey[2] != TokenCountKey[2];
  }

  class ChunkingAgent {
    const chunkSize: int
    const chunkOverlap: int
    const encoding: Encoding

    /** `chunk_size or config.chunk_size`, and the same for the overlap. */
    constructor(chunkSizeArg: Option<int>, chunkOverlapArg: Option<int>, encoding: Encoding)
      ensures chunkSize == OrDefault(chunkSizeArg, Config.ChunkSize)
      ensures chunkOverlap == OrDefault(chunkOverlapArg, Config.ChunkOverlap)
      ensures this.encoding == encoding
    {
      chunkSize := OrDefault(chunkSizeArg, Config.ChunkSize);
      chunkOverlap := OrDefault(chunkOverlapArg, Config.ChunkOverlap);
      this.encoding := encoding;
    }

    /** `split_by_sentences`, recombining every part: the loop runs to
        `len(parts)`, where the source stops at `len(parts) - 1`. */
    method SplitBySentences(text: string, language: string) returns (sentences: seq<string>)
      ensures sentences == Sentences(text, language)
    {
      var parts := SentenceParts(text, language);
      var result: seq<string> := [];
      var i := 0;
      while i < |parts|
        invariant i % 2 == 0 && i <= |parts| + 1
        invariant result + Recombine(parts[Min(i, |parts|)..]) == Recombine(parts)
        decreases |parts| + 1 - i
      {
        var sentence := if i + 1 < |parts| then parts[i] + parts[i + 1] else parts[i];
        RecombineFrom(parts, i);
        assert (result + [sentence]) + Recombine(parts[Min(i + 2, |parts|)..])
            == result + ([sentence] + Recombine(parts[Min(i + 2, |parts|)..]));
        result := result + [sentence];
        i := i + 2;
      }
      assert parts[|parts|..] == [];
      assert result == Recombine(parts);
      sentences := Filter(result, NotBlank);
    }

    /** The packing loop of `chunk_text_recursive`, for paragraphs (sep
        "\n\n") and for sentences (sep " "). */
    method PackChunks(items: seq<string>, sep: string, maxTokens: int, overlap: int) returns (chunks: seq<string>)
      ensures chunks == Packed(items, sep, encoding, maxTokens, overlap)
    {
      chunks := [];
      var current := "";
      for i := 0 to |items|
        invariant Pack(chunks, current) == PackAll(items[..i], sep, encoding, maxTokens, overlap)
      {
        assert items[..i + 1][..i] == items[..i];
        chunks, current := PackItem(chunks, current, items[i], sep, maxTokens, overlap);
      }
      assert items[..|items|] == items;
      if current != "" {
        chunks := chunks + [current];
      }
    }

    /** One pass of the packing loop's body. */
    method PackItem(chunks: seq<string>, current: string, raw: string, sep: string, maxTokens: int, overlap: int)
      returns (chunks': seq<string>, current': string)
      ensures Pack(chunks', current') == PackStep(Pack(chunks, current), raw, sep, encoding, maxTokens, overlap)
    {
      chunks', current' := chunks, current;
      var item := Strip(raw);
      if item != "" {
        var test := if current != "" then current + sep + item else item;
        if CountTokens(encoding, test) <= maxTokens {
          current' := test;
        } else {
          if current != "" {
            chunks' := chunks + [current];
          }
          if chunks' != [] && overlap > 0 {
            var prevTokens := encoding.encode(chunks'[|chunks'| - 1]);
            var overlapText := encoding.decode(PyTail(prevTokens, overlap));
            current' := overlapText + sep + item;
          } else {
            current' := item;
          }
        }
      }
    }

    /** The token-window loop of `chunk_text_recursive`. */
    method SplitByTokens(text: string, maxTokens: int, overlap: int) returns (chunks: Option<seq<string>>)
      ensures chunks == TokenChunks(encoding, text, maxTokens, overlap)
    {
      var tokens := encoding.encode(text);
      if tokens == [] {
        return Some([]);
      }
      if maxTokens - overlap <= 0 {
        // `i` never moves past the first window: the source loops forever
        return None;
      }
      var step: nat := maxTokens - overlap;
      var windows := DecodeWindows(tokens, maxTokens, step);
      return Some(windows);
    }

    /** The `while i < len(tokens)` loop: each window decoded, in order. */
    method DecodeWindows(tokens: seq<nat>, maxTokens: int, step: nat) returns (result: seq<string>)
      requires step > 0
      ensures result == WindowTexts(encoding, tokens, 0, maxTokens, step)
    {
      result := [];
      var i: nat := 0;
      while i < |tokens|
        invariant result + WindowTexts(encoding, tokens, i, maxTokens, step) == WindowTexts(encoding, tokens, 0, maxTokens, step)
        decreases |tokens| - i
      {
        var chunkTokens := PySlice(tokens, i, i + maxTokens);
        WindowTextsStep(result, encoding, tokens, i, maxTokens, step);
        result := result + [encoding.decode(chunkTokens)];
        i := i + step;
      }
      assert result + [] == result;
    }

    /** `chunk_text_recursive`; an absent or zero limit or overlap takes
        the agent's own. `None` where the source never returns. */
    method ChunkTextRecursive(text: string, language: string, maxTokens: Option<int>, overlapTokens: Option<int>)
      returns (chunks: Option<seq<string>>)
      ensures chunks == ChunkTexts(encoding, text, language, OrDefault(maxTokens, chunkSize),
                                   OrDefault(overlapTokens, chunkOverlap))
    {
      var limit := OrDefault(maxTokens, chunkSize);
      var overlap := OrDefault(overlapTokens, chunkOverlap);
      if CountTokens(encoding, text) <= limit {
        return Some([text]);
      }
      var paragraphs := Paragraphs(text);
      if |paragraphs| > 1 {
        var packed := PackChunks(paragraphs, "\n\n", limit, overlap);
        return Some(packed);
      }
      var sentences := SplitBySentences(text, language);
      if |sentences| > 1 {
        var packed := PackChunks(sentences, " ", limit, overlap);
        return Some(packed);
      }
      chunks := SplitByTokens(text, limit, overlap);
    }

    /** `chunk_document`: the chunk texts of the document at the agent's
        limits, each made into a chunk object with its id, page, character
        span and metadata. `None` where the source never returns. */
    method ChunkDocument(text: string, docId: string, language: string, metadata: map<string, Retriever.Value>)
      returns (chunks: Option<seq<Chunk>>)
      ensures chunks.None? <==> ChunkTexts(encoding, text, language, chunkSize, chunkOverlap).None?
      ensures chunks.Some? ==>
                ChunksOf(chunks.value, ChunkTexts(encoding, text, language, chunkSize, chunkOverlap).value,
                         docId, language, metadata, encoding)
    {
      var texts := ChunkTextRecursive(text, language, None, None);
      if texts.None? {
        return None;
      }
      var built := BuildChunks(texts.value, docId, language, metadata);
      return Some(built);
    }

    /** The loop of `chunk_document` over the chunk texts. */
    method BuildChunks(texts: seq<string>, docId: string, language: string, metadata: map<string, Retriever.Value>)
      returns (chunks: seq<Chunk>)
      ensures ChunksOf(chunks, texts, docId, language, metadata, encoding)
    {
      chunks := [];
      var offset := 0;
      for i := 0 to |texts|
        invariant |chunks| == i && offset == |Flatten(texts[..i])|
        invariant forall k :: 0 <= k < i ==> chunks[k] == ChunkAt(texts, k, docId, language, metadata, encoding)
      {
        var chunkText := texts[i];
        var chunk := Chunk(chunkText, ChunkId(docId, i), docId, language, ExtractPageNumber(chunkText),
                           offset, offset + |chunkText|,
                           ChunkMetadata(metadata, i, |texts|, CountTokens(encoding, chunkText)));
        ChunkAtOffset(texts, i, offset, docId, language, metadata, encoding);
        ChunksOfSnoc(chunks, texts, chunk, docId, language, metadata, encoding);
        chunks := chunks + [chunk];
        offset := offset + |chunkText|;
      }
    }
  }
}
