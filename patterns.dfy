/** The fragments of Python's `re` that the agents use, written out for the
    specific patterns: word boundaries, runs of a character class, the first
    match of a search, and `re.sub` with a fixed replacement. A matcher at a
    position says whether the pattern matches there and how much it takes. */
module Patterns {
  import opened Seqs
  import opened Text

  /** A match: how many characters it spans and the text of its group. */
  datatype Found = Found(len: nat, text: string)

  /** A pattern anchored at each position of one fixed string. */
  type Matcher = nat -> Option<Found>

  /** Whether s has a word character at position p (none outside s). */
  predicate WordCharAt(s: string, p: int)
  {
    0 <= p < |s| && IsWordChar(s[p])
  }

  /** `\b` at position p: a word character on exactly one side. */
  predicate Boundary(s: string, p: int)
  {
    WordCharAt(s, p - 1) != WordCharAt(s, p)
  }

  /** Length of the run of characters satisfying p from position i: the
      greedy `[...]*`. */
  function RunFrom(s: string, i: nat, p: char -> bool): (n: nat)
    requires i <= |s|
    ensures i + n <= |s|
    ensures forall k :: i <= k < i + n ==> p(s[k])
    ensures i + n == |s| || !p(s[i + n])
    decreases |s| - i
  {
    if i < |s| && p(s[i]) then 1 + RunFrom(s, i + 1, p) else 0
  }

  /** The lower-case word w occurs at i, ignoring case. */
  predicate KeywordAt(s: string, i: nat, w: string)
  {
    i + |w| <= |s| && Lower(s[i..i + |w|]) == w
  }

  /** `re.search`: the match at the first position from i where the
      pattern matches. */
  function SearchFrom(s: string, i: nat, m: Matcher): Option<Found>
    requires i <= |s|
    decreases |s| - i
  {
    if m(i).Some? then m(i)
    else if i == |s| then None
    else SearchFrom(s, i + 1, m)
  }

  /** The search finds nothing exactly when no position from i matches,
      and otherwise the match at the first position that does. */
  lemma {:induction false} SearchFromFacts(s: string, i: nat, m: Matcher)
    requires i <= |s|
    ensures SearchFrom(s, i, m).None? <==> forall j :: i <= j <= |s| ==> m(j).None?
    ensures SearchFrom(s, i, m).Some? ==>
              exists j :: i <= j <= |s| && m(j) == SearchFrom(s, i, m) && forall k :: i <= k < j ==> m(k).None?
    decreases |s| - i
  {
    if m(i).None? && i < |s| {
      SearchFromFacts(s, i + 1, m);
      if SearchFrom(s, i + 1, m).Some? {
        var j :| i + 1 <= j <= |s| && m(j) == SearchFrom(s, i + 1, m) && forall k :: i + 1 <= k < j ==> m(k).None?;
        assert forall k :: i <= k < j ==> m(k).None?;
      }
    }
  }

  /** m matches at j and takes at least one character of s. */
  predicate Hit(s: string, j: nat, m: Matcher)
  {
    j < |s| && m(j).Some? && 0 < m(j).value.len <= |s| - j
  }

  /** `re.split(pattern, s)` for a pattern without groups, for the piece
      that starts at `start` with the scan at i: the pieces between
      matches, the matches themselves dropped. */
  function SplitBy(s: string, start: nat, i: nat, m: Matcher): (r: seq<string>)
    requires start <= i <= |s|
    ensures |r| >= 1
    decreases |s| - i
  {
    if i == |s| then [s[start..]]
    else if Hit(s, i, m) then [s[start..i]] + SplitBy(s, i + m(i).value.len, i + m(i).value.len, m)
    else SplitBy(s, start, i + 1, m)
  }

  /** The split has more than one piece exactly when the pattern matches
      somewhere; otherwise the one piece is the whole text. */
  lemma {:induction false} SplitByFacts(s: string, start: nat, i: nat, m: Matcher)
    requires start <= i <= |s|
    ensures |SplitBy(s, start, i, m)| == 1 <==> forall j :: i <= j < |s| ==> !Hit(s, j, m)
    ensures |SplitBy(s, start, i, m)| == 1 ==> SplitBy(s, start, i, m) == [s[start..]]
    decreases |s| - i
  {
    if i < |s| && !Hit(s, i, m) {
      SplitByFacts(s, start, i + 1, m);
    }
  }

  /** `re.split('(' + pattern + ')', s)`: the pieces between matches with
      each match, captured, between its two neighbours; an odd number of
      parts, a text piece first and last. */
  function SplitWithDelims(s: string, start: nat, i: nat, m: Matcher): (r: seq<string>)
    requires start <= i <= |s|
    ensures |r| % 2 == 1
    decreases |s| - i
  {
    if i == |s| then [s[start..]]
    else if Hit(s, i, m) then
      [s[start..i], s[i..i + m(i).value.len]] + SplitWithDelims(s, i + m(i).value.len, i + m(i).value.len, m)
    else SplitWithDelims(s, start, i + 1, m)
  }

  /** Positions where the pattern does not match leave the split as it is. */
  lemma {:induction false} SplitWithDelimsSkip(s: string, start: nat, i: nat, k: nat, m: Matcher)
    requires start <= i <= k <= |s|
    requires forall j :: i <= j < k ==> !Hit(s, j, m)
    ensures SplitWithDelims(s, start, i, m) == SplitWithDelims(s, start, k, m)
    decreases k - i
  {
    if i < k {
      SplitWithDelimsSkip(s, start, i + 1, k, m);
    }
  }

  /** The parts concatenate back to the text, and there is more than one
      exactly when the pattern matches somewhere. */
  lemma {:induction false} SplitWithDelimsFacts(s: string, start: nat, i: nat, m: Matcher)
    requires start <= i <= |s|
    ensures Flatten(SplitWithDelims(s, start, i, m)) == s[start..]
    ensures |SplitWithDelims(s, start, i, m)| == 1 <==> forall j :: i <= j < |s| ==> !Hit(s, j, m)
    decreases |s| - i
  {
    if i == |s| {
      assert Flatten([s[start..]]) == s[start..] + Flatten([s[start..]][1..]);
    } else if Hit(s, i, m) {
      var e := i + m(i).value.len;
      var rest := SplitWithDelims(s, e, e, m);
      SplitWithDelimsFacts(s, e, e, m);
      var r := [s[start..i], s[i..e]] + rest;
      assert r[1..][1..] == rest;
      assert Flatten(r) == s[start..i] + (s[i..e] + Flatten(rest));
      assert s[start..] == s[start..i] + (s[i..e] + s[e..]);
    } else {
      SplitWithDelimsFacts(s, start, i + 1, m);
    }
  }

  /** `re.sub(pattern, '', s[i:])` for a pattern that never matches the
      empty string: each match is cut, scanning resumes after it. */
  function RemoveMatches(s: string, i: nat, m: Matcher): (r: string)
    requires i <= |s|
    ensures |r| <= |s| - i
    decreases |s| - i
  {
    if i == |s| then []
    else
      var found := m(i);
      if found.Some? && 0 < found.value.len <= |s| - i then RemoveMatches(s, i + found.value.len, m)
      else [s[i]] + RemoveMatches(s, i + 1, m)
  }

  /** Where the pattern matches nowhere, `re.sub` changes nothing. */
  lemma {:induction false} RemoveNoMatches(s: string, i: nat, m: Matcher)
    requires i <= |s|
    requires forall j :: i <= j < |s| ==> m(j).None?
    ensures RemoveMatches(s, i, m) == s[i..]
    decreases |s| - i
  {
    if i < |s| {
      RemoveNoMatches(s, i + 1, m);
      assert s[i..] == [s[i]] + s[i + 1..];
    }
  }

  /** Every character left by `re.sub` is a character of s, in order: the
      result is s with some pieces cut out. */
  lemma {:induction false} RemoveMatchesKeepsOrder(s: string, i: nat, m: Matcher)
    requires i <= |s|
    ensures IsSubsequence(RemoveMatches(s, i, m), s[i..])
    decreases |s| - i
  {
    if i < |s| {
      var found := m(i);
      var t := s[i..];
      if found.Some? && 0 < found.value.len <= |s| - i {
        var n := found.value.len;
        RemoveMatchesKeepsOrder(s, i + n, m);
        assert s[i + n..] == t[n..];
        SubsequenceOfSuffix(RemoveMatches(s, i + n, m), t, n);
      } else {
        RemoveMatchesKeepsOrder(s, i + 1, m);
        assert t == [s[i]] + s[i + 1..];
      }
    }
  }

  /** r can be obtained from s by deleting characters. */
  predicate IsSubsequence(r: string, s: string)
    decreases |s|
  {
    if r == [] then true
    else if s == [] then false
    else if r[0] == s[0] then IsSubsequence(r[1..], s[1..])
    else IsSubsequence(r, s[1..])
  }

  lemma {:induction false} SubsequenceOfSuffix(r: string, s: string, n: nat)
    requires n <= |s| && IsSubsequence(r, s[n..])
    ensures IsSubsequence(r, s)
    decreases n
  {
    if n > 0 {
      assert s[1..][n - 1..] == s[n..];
      SubsequenceOfSuffix(r, s[1..], n - 1);
      SubsequenceSkip(r, s);
    }
  }

  lemma {:induction false} SubsequenceSkip(r: string, s: string)
    requires s != [] && IsSubsequence(r, s[1..])
    ensures IsSubsequence(r, s)
    decreases |s|, 0
  {
    if r != [] && r[0] == s[0] {
      SubsequenceDropHead(r, s[1..]);
    }
  }

  lemma {:induction false} SubsequenceDropHead(r: string, s: string)
    requires r != [] && IsSubsequence(r, s)
    ensures IsSubsequence(r[1..], s)
    decreases |s|, 1
  {
    if r[0] != s[0] {
      SubsequenceDropHead(r, s[1..]);
    }
    SubsequenceSkip(r[1..], s);
  }

  /** No two neighbouring characters both satisfy p. */
  ghost predicate NoAdjacent(s: string, p: char -> bool)
  {
    forall i :: 0 <= i < |s| - 1 ==> !(p(s[i]) && p(s[i + 1]))
  }

  /** `re.sub(r'[p]+', c, s)`: every maximal run of p-characters becomes
      the single character c. */
  function CollapseRuns(s: string, p: char -> bool, c: char): (r: string)
    ensures |r| <= |s|
    ensures s != [] && !p(s[0]) ==> r != [] && r[0] == s[0]
    decreases |s|
  {
    if s == [] then []
    else if p(s[0]) then [c] + CollapseRuns(LStripBy(s, p), p, c)
    else [s[0]] + CollapseRuns(s[1..], p, c)
  }

  /** After collapsing, no two p-characters are neighbours, and every
      p-character left is c. */
  lemma {:induction false} CollapseRunsFacts(s: string, p: char -> bool, c: char)
    requires p(c)
    ensures NoAdjacent(CollapseRuns(s, p, c), p)
    ensures forall i :: 0 <= i < |CollapseRuns(s, p, c)| && p(CollapseRuns(s, p, c)[i]) ==>
              CollapseRuns(s, p, c)[i] == c
    decreases |s|
  {
    if s != [] {
      var r := CollapseRuns(s, p, c);
      var t := if p(s[0]) then LStripBy(s, p) else s[1..];
      CollapseRunsFacts(t, p, c);
      var rest := CollapseRuns(t, p, c);
      assert r == [r[0]] + rest;
      forall i | 0 <= i < |r| - 1 ensures !(p(r[i]) && p(r[i + 1])) {
        if i > 0 {
          assert r[i] == rest[i - 1] && r[i + 1] == rest[i];
        } else if p(s[0]) && rest != [] {
          assert t != [] && !p(t[0]);
          assert r[1] == t[0];
        }
      }
      forall i | 0 <= i < |r| && p(r[i]) ensures r[i] == c {
        if i > 0 { assert r[i] == rest[i - 1]; }
      }
    }
  }

  /** A string whose p-characters are all c and never neighbours is left
      as it is. */
  lemma {:induction false} CollapseRunsOfCollapsed(s: string, p: char -> bool, c: char)
    requires NoAdjacent(s, p)
    requires forall i :: 0 <= i < |s| && p(s[i]) ==> s[i] == c
    ensures CollapseRuns(s, p, c) == s
    decreases |s|
  {
    if s != [] {
      var t := s[1..];
      assert NoAdjacent(t, p) by {
        forall i | 0 <= i < |t| - 1 ensures !(p(t[i]) && p(t[i + 1])) {
          assert t[i] == s[i + 1] && t[i + 1] == s[i + 2];
        }
      }
      CollapseRunsOfCollapsed(t, p, c);
      if p(s[0]) {
        assert t == [] || !p(t[0]) by {
          if t != [] { assert t[0] == s[1]; }
        }
        assert LStripBy(s, p) == LStripBy(t, p);
        assert LStripBy(t, p) == t;
      }
      assert s == [s[0]] + t;
    }
  }

  /** Cutting the ends of a string keeps its neighbours apart. */
  lemma NoAdjacentSlice(s: string, p: char -> bool, a: nat, b: nat)
    requires NoAdjacent(s, p) && a <= b <= |s|
    ensures NoAdjacent(s[a..b], p)
  {
    var t := s[a..b];
    forall i | 0 <= i < |t| - 1 ensures !(p(t[i]) && p(t[i + 1])) {
      assert t[i] == s[a + i] && t[i + 1] == s[a + i + 1];
    }
  }
}
