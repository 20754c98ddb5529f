/** Generic sequence operations that the Python code gets from its built-ins:
    slicing with Python's negative-index rule, list comprehensions with a
    condition, `sorted(..., reverse=True)` (a stable sort), and the
    "seen set" de-duplication loop the agents write by hand. */
module Seqs {

  datatype Option<+T> = None | Some(value: T) {
    function GetOr(default: T): T {
      if Some? then value else default
    }
  }

  function Min(a: int, b: int): int { if a <= b then a else b }
  function Max(a: int, b: int): int { if a <= b then b else a }

  /** Python's `x or default` on an optional integer: an absent or zero x
      takes the default. */
  function OrDefault(x: Option<int>, default: int): (k: int)
    ensures x.Some? && x.value != 0 ==> k == x.value
    ensures x.None? || x.value == 0 ==> k == default
  {
    if x.None? || x.value == 0 then default else x.value
  }

  /** Python's `s[:n]`: a non-negative n keeps at most n elements, a negative
      n drops the last -n elements. */
  function PySliceTo<T>(s: seq<T>, n: int): (r: seq<T>)
    ensures |r| == (if n >= 0 then Min(n, |s|) else Max(0, |s| + n))
    ensures r == s[..|r|]
  {
    if n >= 0 then (if n <= |s| then s[..n] else s)
    else if |s| + n >= 0 then s[..|s| + n] else []
  }

  /** Python's `s[a:b]` for a non-negative start. */
  function PySlice<T>(s: seq<T>, a: nat, b: int): (r: seq<T>)
    ensures a <= b <= |s| ==> r == s[a..b]
    ensures a <= |s| <= b ==> r == s[a..]
    ensures |r| <= |s|
  {
    var e := PySliceTo(s, b);
    if a <= |e| then e[a..] else []
  }

  /** Python's `s[-n:]` for n > 0: the last n elements, or all of s. */
  function PyTail<T>(s: seq<T>, n: nat): (r: seq<T>)
    ensures |r| == Min(n, |s|)
    ensures forall i :: 0 <= i < |r| ==> r[i] == s[|s| - |r| + i]
  {
    if n <= |s| then s[|s| - n..] else s
  }

  /** `[x for x in s if p(x)]` */
  function Filter<T>(s: seq<T>, p: T -> bool): (r: seq<T>)
    ensures |r| <= |s|
    ensures forall i :: 0 <= i < |r| ==> p(r[i]) && r[i] in s
  {
    if s == [] then []
    else if p(s[0]) then [s[0]] + Filter(s[1..], p)
    else Filter(s[1..], p)
  }

  lemma {:induction false} FilterAppend<T>(a: seq<T>, b: seq<T>, p: T -> bool)
    ensures Filter(a + b, p) == Filter(a, p) + Filter(b, p)
  {
    if a != [] {
      assert (a + b)[1..] == a[1..] + b;
      FilterAppend(a[1..], b, p);
    } else {
      assert a + b == b;
    }
  }

  /** `[f(x) for x in s]` */
  function Map<T, U>(s: seq<T>, f: T -> U): (r: seq<U>)
    ensures |r| == |s|
    ensures forall i :: 0 <= i < |s| ==> r[i] == f(s[i])
  {
    if s == [] then [] else [f(s[0])] + Map(s[1..], f)
  }

  lemma MapCons<T, U>(x: T, s: seq<T>, f: T -> U)
    ensures Map([x] + s, f) == [f(x)] + Map(s, f)
  {
    assert ([x] + s)[1..] == s;
  }

  lemma MapAppend<T, U>(a: seq<T>, x: T, f: T -> U)
    ensures Map(a + [x], f) == Map(a, f) + [f(x)]
  {
  }

  /** `[f(x) for x in s if p(x)]` grows by f(x) exactly when p(x). */
  lemma MapFilterSnoc<T, U>(s: seq<T>, x: T, p: T -> bool, f: T -> U)
    ensures Map(Filter(s + [x], p), f) == Map(Filter(s, p), f) + (if p(x) then [f(x)] else [])
  {
    FilterAppend(s, [x], p);
    assert Filter([x], p) == if p(x) then [x] else [] by {
      assert [x][1..] == [];
    }
    MapAppend(Filter(s, p), x, f);
    if !p(x) {
      assert Filter(s, p) + [] == Filter(s, p);
    }
  }

  /** Concatenation is associative. */
  lemma ConcatAssoc<T>(a: seq<T>, b: seq<T>, c: seq<T>)
    ensures (a + b) + c == a + (b + c)
  {
  }

  /** A prefix one longer is the prefix and the next element. */
  lemma PrefixSnoc<T>(s: seq<T>, j: nat)
    requires j < |s|
    ensures s[..j + 1] == s[..j] + [s[j]]
  {
  }

  /** A suffix of a suffix is a suffix. */
  lemma SuffixOfSuffix<T>(r: seq<T>, t: seq<T>, s: seq<T>)
    requires |t| <= |s| && t == s[|s| - |t|..]
    requires |r| <= |t| && r == t[|t| - |r|..]
    ensures |r| <= |s| && r == s[|s| - |r|..]
  {
    forall k | 0 <= k < |r| ensures r[k] == s[|s| - |r| + k] {
      assert r[k] == t[|t| - |r| + k];
    }
  }

  /** `range(n)` */
  function Range(n: nat): (r: seq<nat>)
    ensures |r| == n && forall i :: 0 <= i < n ==> r[i] == i
  {
    seq(n, i => i)
  }

  lemma {:induction false} FilterKeeps<T>(s: seq<T>, p: T -> bool, x: T)
    requires x in s && p(x)
    ensures x in Filter(s, p)
  {
    if s[0] != x {
      FilterKeeps(s[1..], p, x);
    }
  }

  lemma {:induction false} FilterAll<T>(s: seq<T>, p: T -> bool)
    requires forall i :: 0 <= i < |s| ==> p(s[i])
    ensures Filter(s, p) == s
  {
    if s != [] {
      FilterAll(s[1..], p);
    }
  }

  lemma {:induction false} FilterNone<T>(s: seq<T>, p: T -> bool)
    requires forall i :: 0 <= i < |s| ==> !p(s[i])
    ensures Filter(s, p) == []
  {
    if s != [] {
      FilterNone(s[1..], p);
    }
  }

  function Flatten<T>(ss: seq<seq<T>>): seq<T>
  {
    if ss == [] then [] else ss[0] + Flatten(ss[1..])
  }

  lemma {:induction false} FlattenAppend<T>(a: seq<seq<T>>, b: seq<seq<T>>)
    ensures Flatten(a + b) == Flatten(a) + Flatten(b)
  {
    if a != [] {
      assert (a + b)[1..] == a[1..] + b;
      FlattenAppend(a[1..], b);
    } else {
      assert a + b == b;
    }
  }

  /** Appending one more sequence extends the flattening by it. */
  lemma FlattenSnoc<T>(a: seq<seq<T>>, x: seq<T>)
    ensures Flatten(a + [x]) == Flatten(a) + x
  {
    FlattenAppend(a, [x]);
    assert [x][1..] == [];
    assert Flatten([x]) == x + Flatten([x][1..]);
  }

  function Sum(s: seq<real>): real
  {
    if s == [] then 0.0 else s[0] + Sum(s[1..])
  }

  lemma {:induction false} SumAppend(a: seq<real>, b: seq<real>)
    ensures Sum(a + b) == Sum(a) + Sum(b)
  {
    if a != [] {
      assert (a + b)[1..] == a[1..] + b;
      SumAppend(a[1..], b);
    } else {
      assert a + b == b;
    }
  }

  function Repeat<T>(x: T, n: nat): (r: seq<T>)
    ensures |r| == n
    ensures forall i :: 0 <= i < n ==> r[i] == x
  {
    if n == 0 then [] else [x] + Repeat(x, n - 1)
  }

  // ---------------------------------------------------------------------
  // De-duplication that keeps the first element with each key: the
  // `seen = set(); for x in s: if key(x) not in seen: ...` loop.
  // ---------------------------------------------------------------------

  function DedupFrom<T, K(==)>(s: seq<T>, key: T -> K, seen: set<K>): seq<T>
  {
    if s == [] then []
    else if key(s[0]) in seen then DedupFrom(s[1..], key, seen)
    else [s[0]] + DedupFrom(s[1..], key, seen + {key(s[0])})
  }

  function DedupByKey<T, K(==)>(s: seq<T>, key: T -> K): seq<T>
  {
    DedupFrom(s, key, {})
  }

  /** The first element of s whose key is k. */
  function FirstWithKey<T, K(==)>(s: seq<T>, key: T -> K, k: K): T
    requires exists i :: 0 <= i < |s| && key(s[i]) == k
  {
    if key(s[0]) == k then s[0]
    else
      assert exists i :: 0 <= i < |s[1..]| && key(s[1..][i]) == k by {
        var i :| 0 <= i < |s| && key(s[i]) == k;
        assert i > 0 && s[1..][i - 1] == s[i];
      }
      FirstWithKey(s[1..], key, k)
  }

  function KeySet<T, K>(s: seq<T>, key: T -> K): set<K>
  {
    set i | 0 <= i < |s| :: key(s[i])
  }

  lemma KeySetCons<T, K>(x: T, s: seq<T>, key: T -> K)
    ensures KeySet([x] + s, key) == {key(x)} + KeySet(s, key)
  {
    var c := [x] + s;
    forall k | k in KeySet(c, key) ensures k in {key(x)} + KeySet(s, key) {
      var i :| 0 <= i < |c| && key(c[i]) == k;
      if i > 0 { assert c[i] == s[i - 1]; }
    }
    forall k | k in KeySet(s, key) ensures k in KeySet(c, key) {
      var i :| 0 <= i < |s| && key(s[i]) == k;
      assert c[i + 1] == s[i];
    }
    assert c[0] == x;
  }

  ghost predicate DistinctKeys<T, K>(s: seq<T>, key: T -> K)
  {
    forall i, j :: 0 <= i < j < |s| ==> key(s[i]) != key(s[j])
  }

  /** What the de-duplication keeps: one element per key not yet seen, each
      the FIRST element of s with that key, keys pairwise distinct. */
  lemma {:induction false} DedupFromFacts<T, K>(s: seq<T>, key: T -> K, seen: set<K>)
    ensures var r := DedupFrom(s, key, seen);
      && |r| <= |s|
      && DistinctKeys(r, key)
      && KeySet(r, key) == KeySet(s, key) - seen
      && (forall i :: 0 <= i < |r| ==> r[i] in s)
      && (forall i :: 0 <= i < |r| ==> key(r[i]) !in seen)
      && (forall i {:trigger r[i]} :: 0 <= i < |r| ==> exists j :: 0 <= j < |s| && key(s[j]) == key(r[i]))
      && (forall i :: 0 <= i < |r| ==> r[i] == FirstWithKey(s, key, key(r[i])))
  {
    var r := DedupFrom(s, key, seen);
    if s == [] {
      assert KeySet(s, key) == {};
    } else {
      var t := s[1..];
      assert s == [s[0]] + t;
      KeySetCons(s[0], t, key);
      if key(s[0]) in seen {
        DedupFromFacts(t, key, seen);
        forall i | 0 <= i < |r| ensures r[i] == FirstWithKey(s, key, key(r[i])) {
          var j :| 0 <= j < |t| && key(t[j]) == key(r[i]);
          assert s[j + 1] == t[j];
        }
        forall i | 0 <= i < |r| ensures exists j :: 0 <= j < |s| && key(s[j]) == key(r[i]) {
          var j :| 0 <= j < |t| && key(t[j]) == key(r[i]);
          assert s[j + 1] == t[j];
        }
      } else {
        var seen' := seen + {key(s[0])};
        var rest := DedupFrom(t, key, seen');
        DedupFromFacts(t, key, seen');
        assert r == [s[0]] + rest;
        forall i | 0 <= i < |r| ensures r[i] == FirstWithKey(s, key, key(r[i])) {
          if i > 0 {
            assert r[i] == rest[i - 1];
            var j :| 0 <= j < |t| && key(t[j]) == key(rest[i - 1]);
            assert s[j + 1] == t[j];
          }
        }
        forall i | 0 <= i < |r| ensures exists j :: 0 <= j < |s| && key(s[j]) == key(r[i]) {
          if i > 0 {
            var j :| 0 <= j < |t| && key(t[j]) == key(rest[i - 1]);
            assert s[j + 1] == t[j];
          } else {
            assert key(s[0]) == key(r[0]);
          }
        }
        KeySetCons(s[0], rest, key);
      }
    }
  }

  lemma KeySetAppend<T, K>(s: seq<T>, x: T, key: T -> K)
    ensures KeySet(s + [x], key) == KeySet(s, key) + {key(x)}
  {
    var c := s + [x];
    forall k | k in KeySet(c, key) ensures k in KeySet(s, key) + {key(x)} {
      var i :| 0 <= i < |c| && key(c[i]) == k;
      if i < |s| { assert c[i] == s[i]; }
    }
    forall k | k in KeySet(s, key) ensures k in KeySet(c, key) {
      var i :| 0 <= i < |s| && key(s[i]) == k;
      assert c[i] == s[i];
    }
    assert c[|s|] == x;
  }

  /** De-duplicating one more element keeps it iff its key is new. */
  lemma {:induction false} DedupFromAppend<T, K>(s: seq<T>, x: T, key: T -> K, seen: set<K>)
    ensures DedupFrom(s + [x], key, seen)
            == DedupFrom(s, key, seen) + (if key(x) in seen || key(x) in KeySet(s, key) then [] else [x])
  {
    if s == [] {
      assert s + [x] == [x];
      assert KeySet(s, key) == {};
    } else {
      assert (s + [x])[1..] == s[1..] + [x];
      assert s == [s[0]] + s[1..];
      KeySetCons(s[0], s[1..], key);
      if key(s[0]) in seen {
        DedupFromAppend(s[1..], x, key, seen);
      } else {
        DedupFromAppend(s[1..], x, key, seen + {key(s[0])});
      }
    }
  }

  // ---------------------------------------------------------------------
  // Python's `sorted(s, key=key, reverse=True)`: stable, so elements with
  // equal keys keep their input order.
  // ---------------------------------------------------------------------

  function InsertDesc<T>(x: T, s: seq<T>, key: T -> real): seq<T>
  {
    if s == [] then [x]
    else if key(s[0]) <= key(x) then [x] + s
    else [s[0]] + InsertDesc(x, s[1..], key)
  }

  function SortDesc<T>(s: seq<T>, key: T -> real): seq<T>
  {
    if s == [] then [] else InsertDesc(s[0], SortDesc(s[1..], key), key)
  }

  ghost predicate SortedDesc<T>(s: seq<T>, key: T -> real)
  {
    forall i, j :: 0 <= i < j < |s| ==> key(s[i]) >= key(s[j])
  }

  /** The elements of s whose key equals v, in order. */
  function WithKey<T>(s: seq<T>, key: T -> real, v: real): seq<T>
  {
    if s == [] then []
    else if key(s[0]) == v then [s[0]] + WithKey(s[1..], key, v)
    else WithKey(s[1..], key, v)
  }

  lemma {:induction false} InsertDescPerm<T>(x: T, s: seq<T>, key: T -> real)
    ensures multiset(InsertDesc(x, s, key)) == multiset(s) + multiset{x}
  {
    if s != [] && key(s[0]) > key(x) {
      InsertDescPerm(x, s[1..], key);
      assert s == [s[0]] + s[1..];
    }
  }

  lemma SortedDescCons<T>(a: T, s: seq<T>, key: T -> real)
    requires SortedDesc(s, key)
    requires forall i :: 0 <= i < |s| ==> key(s[i]) <= key(a)
    ensures SortedDesc([a] + s, key)
  {
    var r := [a] + s;
    forall i, j | 0 <= i < j < |r| ensures key(r[i]) >= key(r[j]) {
      assert r[j] == s[j - 1];
      if i > 0 { assert r[i] == s[i - 1]; }
    }
  }

  lemma SortedDescTail<T>(s: seq<T>, key: T -> real)
    requires s != [] && SortedDesc(s, key)
    ensures SortedDesc(s[1..], key)
    ensures forall i :: 0 <= i < |s[1..]| ==> key(s[1..][i]) <= key(s[0])
  {
    var t := s[1..];
    forall i, j | 0 <= i < j < |t| ensures key(t[i]) >= key(t[j]) {
      assert t[i] == s[i + 1] && t[j] == s[j + 1];
    }
    forall i | 0 <= i < |t| ensures key(t[i]) <= key(s[0]) {
      assert t[i] == s[i + 1];
    }
  }

  /** Inserting keeps every key at most b when x's and s's keys are. */
  lemma {:induction false} InsertDescBelow<T>(x: T, s: seq<T>, key: T -> real, b: real)
    requires key(x) <= b
    requires forall i :: 0 <= i < |s| ==> key(s[i]) <= b
    ensures forall i :: 0 <= i < |InsertDesc(x, s, key)| ==> key(InsertDesc(x, s, key)[i]) <= b
  {
    if s != [] && key(s[0]) > key(x) {
      assert forall i :: 0 <= i < |s[1..]| ==> s[1..][i] == s[i + 1];
      InsertDescBelow(x, s[1..], key, b);
    }
  }

  lemma {:induction false} InsertDescSorted<T>(x: T, s: seq<T>, key: T -> real)
    requires SortedDesc(s, key)
    ensures SortedDesc(InsertDesc(x, s, key), key)
  {
    if s == [] {
    } else if key(s[0]) <= key(x) {
      SortedDescTail(s, key);
      SortedDescCons(x, s, key);
    } else {
      var t := s[1..];
      SortedDescTail(s, key);
      InsertDescSorted(x, t, key);
      InsertDescBelow(x, t, key, key(s[0]));
      SortedDescCons(s[0], InsertDesc(x, t, key), key);
    }
  }

  lemma {:induction false} InsertDescWithKey<T>(x: T, s: seq<T>, key: T -> real, v: real)
    requires SortedDesc(s, key)
    ensures WithKey(InsertDesc(x, s, key), key, v)
            == if key(x) == v then [x] + WithKey(s, key, v) else WithKey(s, key, v)
  {
    var r := InsertDesc(x, s, key);
    if s == [] {
    } else if key(s[0]) <= key(x) {
      assert r[1..] == s;
    } else {
      var t := s[1..];
      assert SortedDesc(t, key) by {
        forall i, j | 0 <= i < j < |t| ensures key(t[i]) >= key(t[j]) { assert t[i] == s[i + 1] && t[j] == s[j + 1]; }
      }
      InsertDescWithKey(x, t, key, v);
      assert r[1..] == InsertDesc(x, t, key);
    }
  }

  /** `sorted(s, key, reverse=True)` is ordered by key, is a permutation of s,
      and keeps the input order among equal keys. */
  lemma SortDescFacts<T>(s: seq<T>, key: T -> real)
    ensures SortedDesc(SortDesc(s, key), key)
    ensures multiset(SortDesc(s, key)) == multiset(s)
    ensures |SortDesc(s, key)| == |s|
    ensures forall v :: WithKey(SortDesc(s, key), key, v) == WithKey(s, key, v)
  {
    SortDescSorted(s, key);
    SortDescPerm(s, key);
    SortDescStable(s, key);
  }

  lemma {:induction false} SortDescSorted<T>(s: seq<T>, key: T -> real)
    ensures SortedDesc(SortDesc(s, key), key)
  {
    if s != [] {
      SortDescSorted(s[1..], key);
      InsertDescSorted(s[0], SortDesc(s[1..], key), key);
    }
  }

  lemma {:induction false} SortDescPerm<T>(s: seq<T>, key: T -> real)
    ensures multiset(SortDesc(s, key)) == multiset(s)
    ensures |SortDesc(s, key)| == |s|
  {
    if s != [] {
      var rest := SortDesc(s[1..], key);
      SortDescPerm(s[1..], key);
      InsertDescPerm(s[0], rest, key);
      assert multiset(s) == multiset(s[1..]) + multiset{s[0]} by {
        assert s == [s[0]] + s[1..];
      }
    }
    MultisetSize(SortDesc(s, key), s);
  }

  /** Sequences with the same elements have the same length. */
  lemma MultisetSize<T>(a: seq<T>, b: seq<T>)
    requires multiset(a) == multiset(b)
    ensures |a| == |b|
  {
    assert |a| == |multiset(a)|;
  }

  lemma {:induction false} SortDescStable<T>(s: seq<T>, key: T -> real)
    ensures forall v :: WithKey(SortDesc(s, key), key, v) == WithKey(s, key, v)
  {
    if s != [] {
      SortDescStable(s[1..], key);
      SortDescSorted(s[1..], key);
      forall v ensures WithKey(SortDesc(s, key), key, v) == WithKey(s, key, v) {
        InsertDescWithKey(s[0], SortDesc(s[1..], key), key, v);
      }
    }
  }

  lemma {:induction false} InsertDescKeys<T, K>(x: T, s: seq<T>, key: T -> real, k: T -> K)
    ensures KeySet(InsertDesc(x, s, key), k) == KeySet(s, k) + {k(x)}
    ensures DistinctKeys(s, k) && k(x) !in KeySet(s, k) ==> DistinctKeys(InsertDesc(x, s, key), k)
  {
    if s == [] {
      assert InsertDesc(x, s, key) == [x];
      assert KeySet([x], k) == {k(x)} by { KeySetCons(x, [], k); assert [x] + [] == [x]; }
    } else if key(s[0]) <= key(x) {
      KeySetCons(x, s, k);
    } else {
      var rest := InsertDesc(x, s[1..], key);
      assert s == [s[0]] + s[1..];
      KeySetCons(s[0], s[1..], k);
      KeySetCons(s[0], rest, k);
      InsertDescKeys(x, s[1..], key, k);
      if DistinctKeys(s, k) && k(x) !in KeySet(s, k) {
        assert DistinctKeys(s[1..], k) by {
          forall i, j | 0 <= i < j < |s[1..]| ensures k(s[1..][i]) != k(s[1..][j]) {
            assert s[1..][i] == s[i + 1] && s[1..][j] == s[j + 1];
          }
        }
        assert k(s[0]) !in KeySet(s[1..], k);
        var r := [s[0]] + rest;
        forall i, j | 0 <= i < j < |r| ensures k(r[i]) != k(r[j]) {
          assert r[j] == rest[j - 1];
          if i > 0 {
            assert r[i] == rest[i - 1];
          } else {
            assert k(rest[j - 1]) in KeySet(rest, k);
          }
        }
      }
    }
  }

  /** Sorting keeps the set of keys and their distinctness, for any key. */
  lemma {:induction false} SortDescKeys<T, K>(s: seq<T>, key: T -> real, k: T -> K)
    ensures KeySet(SortDesc(s, key), k) == KeySet(s, k)
    ensures DistinctKeys(s, k) ==> DistinctKeys(SortDesc(s, key), k)
  {
    if s == [] {
    } else {
      var t := s[1..];
      assert s == [s[0]] + t;
      KeySetCons(s[0], t, k);
      SortDescKeys(t, key, k);
      InsertDescKeys(s[0], SortDesc(t, key), key, k);
      if DistinctKeys(s, k) {
        assert DistinctKeys(t, k) by {
          forall i, j | 0 <= i < j < |t| ensures k(t[i]) != k(t[j]) {
            assert t[i] == s[i + 1] && t[j] == s[j + 1];
          }
        }
        assert k(s[0]) !in KeySet(t, k);
      }
    }
  }

  /** Filtering keeps every key at most b when s's keys are. */
  lemma {:induction false} FilterBelow<T>(s: seq<T>, p: T -> bool, key: T -> real, b: real)
    requires forall i :: 0 <= i < |s| ==> key(s[i]) <= b
    ensures forall i :: 0 <= i < |Filter(s, p)| ==> key(Filter(s, p)[i]) <= b
  {
    if s != [] {
      assert forall i :: 0 <= i < |s[1..]| ==> s[1..][i] == s[i + 1];
      FilterBelow(s[1..], p, key, b);
    }
  }

  /** A sub-list of a sorted list is sorted. */
  lemma {:induction false} FilterSortedDesc<T>(s: seq<T>, p: T -> bool, key: T -> real)
    requires SortedDesc(s, key)
    ensures SortedDesc(Filter(s, p), key)
  {
    if s != [] {
      var t := s[1..];
      SortedDescTail(s, key);
      FilterSortedDesc(t, p, key);
      if p(s[0]) {
        FilterBelow(t, p, key, key(s[0]));
        SortedDescCons(s[0], Filter(t, p), key);
      }
    }
  }

  /** One step of a `seen`-set de-duplication loop: the next element is kept
      iff its key is not among the keys kept so far. */
  lemma DedupByKeyStep<T, K>(s: seq<T>, x: T, key: T -> K)
    ensures var d := DedupByKey(s, key);
      && DedupByKey(s + [x], key) == d + (if key(x) in KeySet(d, key) then [] else [x])
      && KeySet(DedupByKey(s + [x], key), key) == KeySet(d, key) + {key(x)}
  {
    DedupFromAppend(s, x, key, {});
    DedupFromFacts(s, key, {});
    DedupFromFacts(s + [x], key, {});
    KeySetAppend(s, x, key);
  }

  /** The de-duplication loop itself: the first element with each key, in
      order. */
  method DedupFirst<T, K(==)>(s: seq<T>, key: T -> K) returns (unique: seq<T>)
    ensures unique == DedupByKey(s, key)
  {
    var seen: set<K> := {};
    unique := [];
    for i := 0 to |s|
      invariant unique == DedupByKey(s[..i], key)
      invariant seen == KeySet(unique, key)
    {
      DedupByKeyStep(s[..i], s[i], key);
      assert s[..i + 1] == s[..i] + [s[i]];
      var k := key(s[i]);
      if k !in seen {
        seen := seen + {k};
        unique := unique + [s[i]];
      }
    }
    assert s[..|s|] == s;
  }
}
