/** The Python `str` built-ins the pipeline relies on: `isspace`, `isdigit`,
    `lower`/`upper`, `strip`, `split()`, `split(sep)`, `join`, `find`,
    `rfind`, `in`, `str(int)` and `int(str)`. Case mapping and `isdigit`
    are modelled on ASCII; whitespace is the full `str.isspace` set. */
module Text {
  import opened Seqs

  /** `c.isspace()` (also the `\s` class of a `re` str pattern). */
  predicate IsSpace(c: char)
  {
    c == ' ' || ('\t' <= c <= '\r') || ('\U{1c}' <= c <= '\U{1f}')
    || c == '\U{85}' || c == '\U{a0}' || c == '\U{1680}'
    || ('\U{2000}' <= c <= '\U{200a}') || c == '\U{2028}' || c == '\U{2029}'
    || c == '\U{202f}' || c == '\U{205f}' || c == '\U{3000}'
  }

  predicate IsDigit(c: char) { '0' <= c <= '9' }
  predicate IsLower(c: char) { 'a' <= c <= 'z' }
  predicate IsUpper(c: char) { 'A' <= c <= 'Z' }
  predicate IsAlpha(c: char) { IsLower(c) || IsUpper(c) }
  /** The `\w` class. */
  predicate IsWordChar(c: char) { IsAlpha(c) || IsDigit(c) || c == '_' }

  predicate AllDigits(s: string)
  {
    forall i :: 0 <= i < |s| ==> IsDigit(s[i])
  }

  /** `s.isdigit()`: non-empty and all digits. */
  predicate IsDigitString(s: string)
  {
    s != [] && AllDigits(s)
  }

  function LowerChar(c: char): (r: char)
    ensures IsUpper(c) ==> IsLower(r)
    ensures !IsUpper(c) ==> r == c
  {
    if IsUpper(c) then (c as int + 32) as char else c
  }

  function UpperChar(c: char): (r: char)
    ensures IsLower(c) ==> IsUpper(r)
    ensures !IsLower(c) ==> r == c
  {
    if IsLower(c) then (c as int - 32) as char else c
  }

  function Lower(s: string): (r: string)
    ensures |r| == |s|
    ensures forall i :: 0 <= i < |s| ==> r[i] == LowerChar(s[i])
  {
    seq(|s|, i requires 0 <= i < |s| => LowerChar(s[i]))
  }

  function Upper(s: string): (r: string)
    ensures |r| == |s|
    ensures forall i :: 0 <= i < |s| ==> r[i] == UpperChar(s[i])
  {
    seq(|s|, i requires 0 <= i < |s| => UpperChar(s[i]))
  }

  lemma LowerIdempotent(s: string)
    ensures Lower(Lower(s)) == Lower(s)
  {
  }

  // ---------------------------------------------------------------------
  // strip / lstrip / rstrip, with the characters to strip given by p
  // ---------------------------------------------------------------------

  function LStripBy(s: string, p: char -> bool): (r: string)
    ensures |r| <= |s|
    ensures r == [] || !p(r[0])
  {
    if s != [] && p(s[0]) then LStripBy(s[1..], p) else s
  }

  /** `lstrip` keeps a suffix. */
  lemma {:induction false} LStripBySuffix(s: string, p: char -> bool)
    ensures LStripBy(s, p) == s[|s| - |LStripBy(s, p)|..]
  {
    if s != [] && p(s[0]) {
      LStripBySuffix(s[1..], p);
      SuffixOfSuffix(LStripBy(s, p), s[1..], s);
    }
  }

  /** Every character `lstrip` cut satisfies p. */
  lemma {:induction false} LStripByCut(s: string, p: char -> bool)
    ensures forall i :: 0 <= i < |s| - |LStripBy(s, p)| ==> p(s[i])
  {
    if s != [] && p(s[0]) {
      LStripByCut(s[1..], p);
      forall i | 0 < i < |s| - |LStripBy(s, p)| ensures p(s[i]) {
        assert s[i] == s[1..][i - 1];
      }
    }
  }

  function RStripBy(s: string, p: char -> bool): (r: string)
    ensures |r| <= |s|
    ensures r == [] || !p(r[|r| - 1])
  {
    if s != [] && p(s[|s| - 1]) then RStripBy(s[..|s| - 1], p) else s
  }

  /** `rstrip` keeps a prefix. */
  lemma {:induction false} RStripByPrefix(s: string, p: char -> bool)
    ensures RStripBy(s, p) == s[..|RStripBy(s, p)|]
  {
    if s != [] && p(s[|s| - 1]) {
      var t := s[..|s| - 1];
      RStripByPrefix(t, p);
      var r := RStripBy(s, p);
      assert r == t[..|r|];
      forall k | 0 <= k < |r| ensures r[k] == s[k] {
        assert t[k] == s[k];
      }
    }
  }

  /** Every character `rstrip` cut satisfies p. */
  lemma {:induction false} RStripByCut(s: string, p: char -> bool)
    ensures forall i :: |RStripBy(s, p)| <= i < |s| ==> p(s[i])
  {
    if s != [] && p(s[|s| - 1]) {
      RStripByCut(s[..|s| - 1], p);
      forall i | |RStripBy(s, p)| <= i < |s| - 1 ensures p(s[i]) {
        assert s[i] == s[..|s| - 1][i];
      }
    }
  }

  /** `s.strip(chars)`: what is left after cutting, on either side, the
      longest run of characters satisfying p. */
  function StripBy(s: string, p: char -> bool): (r: string)
    ensures r == [] || (!p(r[0]) && !p(r[|r| - 1]))
  {
    var l := LStripBy(s, p);
    var r := RStripBy(l, p);
    StripByEnds(l, p, r);
    r
  }

  lemma StripByEnds(l: string, p: char -> bool, r: string)
    requires l == [] || !p(l[0])
    requires r == RStripBy(l, p)
    ensures r == [] || (!p(r[0]) && !p(r[|r| - 1]))
  {
    if r != [] {
      RStripByPrefix(l, p);
      assert r[0] == l[0];
    }
  }

  /** Stripping leaves nothing exactly when every character satisfies p. */
  lemma StripByEmpty(s: string, p: char -> bool)
    ensures StripBy(s, p) == [] <==> forall i :: 0 <= i < |s| ==> p(s[i])
  {
    var l := LStripBy(s, p);
    var r := RStripBy(l, p);
    LStripByCut(s, p);
    RStripByCut(l, p);
    LStripBySuffix(s, p);
    if r == [] {
      forall i | 0 <= i < |s| ensures p(s[i]) {
        if i >= |s| - |l| { assert s[i] == l[i - (|s| - |l|)]; }
      }
    }
  }

  /** The stripped string is the slice of s starting after the cut prefix. */
  lemma StripBySlice(s: string, p: char -> bool)
    ensures var a := |s| - |LStripBy(s, p)|;
      a + |StripBy(s, p)| <= |s| && StripBy(s, p) == s[a..a + |StripBy(s, p)|]
  {
    var l := LStripBy(s, p);
    var r := RStripBy(l, p);
    var a := |s| - |l|;
    LStripBySuffix(s, p);
    RStripByPrefix(l, p);
    forall k | 0 <= k < |r| ensures r[k] == s[a + k] {
      assert r[k] == l[k];
    }
  }

  function Strip(s: string): (r: string)
    ensures IsStripped(r)
    ensures |r| <= |s|
  {
    StripBy(s, IsSpace)
  }

  /** `s.strip()` is empty exactly for an all-whitespace s. */
  lemma StripEmpty(s: string)
    ensures Strip(s) == [] <==> forall i :: 0 <= i < |s| ==> IsSpace(s[i])
  {
    StripByEmpty(s, IsSpace);
  }

  predicate IsStripped(s: string)
  {
    s == [] || (!IsSpace(s[0]) && !IsSpace(s[|s| - 1]))
  }

  lemma {:induction false} StripOfStripped(s: string)
    requires IsStripped(s)
    ensures Strip(s) == s
  {
  }

  lemma {:induction false} StripIdempotent(s: string)
    ensures Strip(Strip(s)) == Strip(s)
  {
    StripOfStripped(Strip(s));
  }

  // ---------------------------------------------------------------------
  // str.split() with no argument: the maximal runs of non-space characters
  // ---------------------------------------------------------------------

  predicate IsWord(w: string)
  {
    w != [] && forall i :: 0 <= i < |w| ==> !IsSpace(w[i])
  }

  /** Length of the leading run of non-space characters. */
  function WordEnd(s: string): (n: nat)
    ensures n <= |s|
    ensures forall i :: 0 <= i < n ==> !IsSpace(s[i])
    ensures n == |s| || IsSpace(s[n])
  {
    if s == [] || IsSpace(s[0]) then 0 else 1 + WordEnd(s[1..])
  }

  /** `s.split()`: the maximal runs of non-space characters, in order. */
  function Words(s: string): seq<string>
    decreases |s|
  {
    var t := LStripBy(s, IsSpace);
    if t == [] then []
    else
      var n := WordEnd(t);
      [t[..n]] + Words(t[n..])
  }

  // ---------------------------------------------------------------------
  // sep.join(parts) and s.split(sep) for a one-character separator
  // ---------------------------------------------------------------------

  function Join(parts: seq<string>, sep: string): string
  {
    if parts == [] then ""
    else if |parts| == 1 then parts[0]
    else parts[0] + sep + Join(parts[1..], sep)
  }

  lemma {:induction false} JoinAppend(a: seq<string>, b: seq<string>, sep: string)
    requires a != [] && b != []
    ensures Join(a + b, sep) == Join(a, sep) + sep + Join(b, sep)
  {
    if |a| == 1 {
      assert (a + b)[1..] == b;
    } else {
      assert (a + b)[1..] == a[1..] + b;
      JoinAppend(a[1..], b, sep);
    }
  }

  /** Joining one more part adds the separator and the part. */
  lemma JoinSnoc(a: seq<string>, x: string, sep: string)
    requires a != []
    ensures Join(a + [x], sep) == Join(a, sep) + sep + x
  {
    JoinAppend(a, [x], sep);
  }

  /** Index of the first c in s, or |s|. */
  function IndexOf(s: string, c: char): (n: nat)
    ensures n <= |s|
    ensures forall i :: 0 <= i < n ==> s[i] != c
    ensures n == |s| || s[n] == c
  {
    if s == [] || s[0] == c then 0 else 1 + IndexOf(s[1..], c)
  }

  function SplitOn(s: string, c: char): (r: seq<string>)
    ensures |r| >= 1
    decreases |s|
  {
    var n := IndexOf(s, c);
    if n == |s| then [s] else [s[..n]] + SplitOn(s[n + 1..], c)
  }

  /** No piece of `s.split(c)` contains c. */
  lemma {:induction false} SplitOnPieces(s: string, c: char)
    ensures forall i :: 0 <= i < |SplitOn(s, c)| ==> c !in SplitOn(s, c)[i]
    decreases |s|
  {
    var n := IndexOf(s, c);
    if n < |s| {
      SplitOnPieces(s[n + 1..], c);
      var r := SplitOn(s, c);
      assert r == [s[..n]] + SplitOn(s[n + 1..], c);
      forall i | 0 <= i < |r| ensures c !in r[i] {
        if i > 0 { assert r[i] == SplitOn(s[n + 1..], c)[i - 1]; }
      }
    }
  }

  /** `sep.join(s.split(sep)) == s` */
  lemma {:induction false} JoinSplitOn(s: string, c: char)
    ensures Join(SplitOn(s, c), [c]) == s
    decreases |s|
  {
    var n := IndexOf(s, c);
    if n < |s| {
      var rest := SplitOn(s[n + 1..], c);
      var parts := [s[..n]] + rest;
      assert SplitOn(s, c) == parts;
      assert parts[1..] == rest;
      assert Join(parts, [c]) == s[..n] + [c] + Join(rest, [c]);
      JoinSplitOn(s[n + 1..], c);
      assert s == s[..n] + [c] + s[n + 1..];
    }
  }

  function CountChar(s: string, c: char): (n: nat)
    ensures n <= |s|
    ensures n == 0 <==> c !in s
  {
    if s == [] then 0 else (if s[0] == c then 1 else 0) + CountChar(s[1..], c)
  }

  lemma {:induction false} CountCharAppend(a: string, b: string, c: char)
    ensures CountChar(a + b, c) == CountChar(a, c) + CountChar(b, c)
  {
    if a == [] {
      assert a + b == b;
    } else {
      assert (a + b)[1..] == a[1..] + b;
      CountCharAppend(a[1..], b, c);
    }
  }

  /** `s.split(sep)` has one more piece than s has separators. */
  lemma {:induction false} SplitOnCount(s: string, c: char)
    ensures |SplitOn(s, c)| == CountChar(s, c) + 1
    decreases |s|
  {
    var n := IndexOf(s, c);
    if n < |s| {
      assert |SplitOn(s, c)| == 1 + |SplitOn(s[n + 1..], c)|;
      SplitOnCount(s[n + 1..], c);
      CountAtFirst(s, n, c);
    }
  }

  /** The first separator of s, at n, is one of its separators. */
  lemma CountAtFirst(s: string, n: nat, c: char)
    requires n < |s| && s[n] == c
    requires forall i :: 0 <= i < n ==> s[i] != c
    ensures CountChar(s, c) == CountChar(s[n + 1..], c) + 1
  {
    var a, rest := s[..n], s[n + 1..];
    assert c !in a by {
      forall i | 0 <= i < |a| ensures a[i] != c { assert a[i] == s[i]; }
    }
    assert ([c] + rest)[1..] == rest;
    assert s == a + ([c] + rest);
    CountCharAppend(a, [c] + rest, c);
  }

  lemma {:induction false} IndexOfPrefix(w: string, c: char, tail: string)
    requires c !in w
    ensures IndexOf(w + [c] + tail, c) == |w|
  {
    if w != [] {
      assert (w + [c] + tail)[1..] == w[1..] + [c] + tail;
      IndexOfPrefix(w[1..], c, tail);
    }
  }

  /** `sep.join(parts).split(sep) == parts` when no part holds the separator. */
  lemma {:induction false} SplitOnJoin(parts: seq<string>, c: char)
    requires parts != []
    requires forall i :: 0 <= i < |parts| ==> c !in parts[i]
    ensures SplitOn(Join(parts, [c]), c) == parts
  {
    if |parts| == 1 {
      assert IndexOf(parts[0], c) == |parts[0]|;
    } else {
      var p0 := parts[0];
      var rest := Join(parts[1..], [c]);
      var s := p0 + [c] + rest;
      assert Join(parts, [c]) == s;
      IndexOfPrefix(p0, c, rest);
      var n := |p0|;
      assert IndexOf(s, c) == n && n < |s|;
      assert s[..n] == p0;
      assert s[n + 1..] == rest;
      assert SplitOn(s, c) == [p0] + SplitOn(rest, c);
      SplitOnJoin(parts[1..], c);
      assert parts == [p0] + parts[1..];
    }
  }

  /** Python `str.find` for a one-character needle: -1 when absent. */
  function Find(s: string, c: char): (r: int)
    ensures -1 <= r < |s|
    ensures r == -1 <==> c !in s
    ensures r >= 0 ==> s[r] == c && forall i :: 0 <= i < r ==> s[i] != c
  {
    var n := IndexOf(s, c);
    if n == |s| then -1 else n
  }

  /** Python `str.rfind` for a one-character needle: -1 when absent. */
  function RFind(s: string, c: char): (r: int)
    ensures -1 <= r < |s|
    ensures r == -1 <==> c !in s
    ensures r >= 0 ==> s[r] == c && forall i :: r < i < |s| ==> s[i] != c
  {
    if s == [] then -1
    else if s[|s| - 1] == c then |s| - 1
    else RFind(s[..|s| - 1], c)
  }

  predicate OccursAt(s: string, sub: string, i: int)
  {
    0 <= i && i + |sub| <= |s| && s[i..i + |sub|] == sub
  }

  /** `sub in s` */
  ghost predicate IsSubstring(sub: string, s: string)
  {
    exists i :: OccursAt(s, sub, i)
  }

  function ContainsFrom(s: string, sub: string, i: nat): (b: bool)
    requires i <= |s|
    ensures b <==> exists j :: i <= j && OccursAt(s, sub, j)
    decreases |s| - i
  {
    if |s| - i < |sub| then false
    else if s[i..i + |sub|] == sub then assert OccursAt(s, sub, i); true
    else ContainsFrom(s, sub, i + 1)
  }

  /** A computable `sub in s`. */
  function Contains(s: string, sub: string): (b: bool)
    ensures b <==> IsSubstring(sub, s)
  {
    ContainsFrom(s, sub, 0)
  }

  // ---------------------------------------------------------------------
  // str(n) and int(s) for non-negative decimal numbers
  // ---------------------------------------------------------------------

  function DigitChar(d: nat): (c: char)
    requires d < 10
    ensures IsDigit(c)
  {
    ('0' as int + d) as char
  }

  function DigitValue(c: char): (d: nat)
    requires IsDigit(c)
    ensures d < 10 && DigitChar(d) == c
  {
    c as int - '0' as int
  }

  /** `str(n)` for n >= 0: decimal digits with no leading zero. */
  function NatToString(n: nat): (r: string)
    ensures IsDigitString(r)
    ensures |r| > 1 ==> r[0] != '0'
    decreases n
  {
    if n < 10 then [DigitChar(n)] else NatToString(n / 10) + [DigitChar(n % 10)]
  }

  /** `str(n)` for any integer. */
  function IntToString(n: int): (r: string)
    ensures r != []
    ensures n >= 0 ==> IsDigitString(r)
    ensures n < 0 ==> r[0] == '-'
  {
    if n >= 0 then NatToString(n) else "-" + NatToString(-n)
  }

  /** `int(s)` for a string of ASCII digits (leading zeros allowed). */
  function DigitsValue(s: string): (n: nat)
    requires AllDigits(s)
  {
    if s == [] then 0 else DigitsValue(s[..|s| - 1]) * 10 + DigitValue(s[|s| - 1])
  }

  lemma {:induction false} DigitsValueOfNatToString(n: nat)
    ensures DigitsValue(NatToString(n)) == n
    decreases n
  {
    if n >= 10 {
      var s := NatToString(n);
      assert s[..|s| - 1] == NatToString(n / 10);
      DigitsValueOfNatToString(n / 10);
    }
  }

  lemma {:induction false} NatToStringInjective(a: nat, b: nat)
    requires NatToString(a) == NatToString(b)
    ensures a == b
  {
    DigitsValueOfNatToString(a);
    DigitsValueOfNatToString(b);
  }

  /** Leading zeros do not change `int(s)`. */
  lemma {:induction false} DigitsValueLeadingZeros(k: nat, s: string)
    requires AllDigits(s)
    ensures AllDigits(Repeat('0', k) + s)
    ensures DigitsValue(Repeat('0', k) + s) == DigitsValue(s)
    decreases |s|
  {
    var z := Repeat('0', k);
    if s == [] {
      assert z + s == z;
      ZerosValue(k);
    } else {
      var s' := s[..|s| - 1];
      DigitsValueLeadingZeros(k, s');
      assert (z + s)[..|z + s| - 1] == z + s';
    }
  }

  lemma {:induction false} ZerosValue(k: nat)
    ensures AllDigits(Repeat('0', k))
    ensures DigitsValue(Repeat('0', k)) == 0
  {
    if k > 0 {
      ZerosValue(k - 1);
      assert Repeat('0', k)[..k - 1] == Repeat('0', k - 1);
    }
  }
}
