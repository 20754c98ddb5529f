/** src/agents/embedding_agent.py: embedding chunks with a round-robin
    rotator over API keys, retrying a failed call with the next key, and
    storing the embedded chunks as points in the vector store, one upsert
    per batch of 100. The embedding service is a parameter (its reply to a
    text sent with a key on a given attempt), and the point-id hash is a
    parameter too. */
module Embedding {
  import opened Seqs
  import Utils
  import Chunking
  import Retriever

  type Vector = seq<real>

  /** The defaults of `embed_text`'s `retry_count` and `embed_batch`'s
      `batch_size`, which `embed_batch` and `embed_chunks` rely on. */
  const DefaultRetryCount: int := 3
  const DefaultBatchSize: int := 10

  /** The embedding service: its reply to `text` sent with `key` on attempt
      number `attempt` of one `embed_text` call; `None` is a raised error. */
  type EmbedService = (string, string, nat) -> Option<Vector>

  // ---------------------------------------------------------------------
  // The key cycle
  // ---------------------------------------------------------------------

  /** One `next(key_cycle)`: the position after p in a cycle over n keys. */
  function NextPosition(p: nat, n: nat): (q: nat)
    requires p < n
    ensures q < n
  {
    if p + 1 == n then 0 else p + 1
  }

  /** The position after r calls of `next` from position p. */
  function Advance(p: nat, n: nat, r: nat): (q: nat)
    requires p < n
    ensures q < n
  {
    if r == 0 then p else NextPosition(Advance(p, n, r - 1), n)
  }

  /** Euclidean division is unique: x = q*n + m with 0 <= m < n fixes m. */
  lemma ModOfDecomposition(x: int, n: int, q: int, m: int)
    requires 0 <= m < n && x == q * n + m
    ensures x % n == m
  {
    var q', m' := x / n, x % n;
    assert x == q' * n + m';
    assert (q - q') * n == m' - m;
    if q - q' >= 1 {
      assert false;
    } else if q - q' <= -1 {
      assert false;
    }
  }

  lemma DivMod(x: int, n: int)
    requires n > 0
    ensures x == (x / n) * n + x % n && 0 <= x % n < n
  {
  }

  /** One more step past x moves the remainder one place round the cycle. */
  lemma ModStep(x: int, n: int)
    requires n > 0
    ensures (x + 1) % n == NextPositionInt(x % n, n)
  {
    DivMod(x, n);
    if x % n + 1 == n {
      ModOfDecomposition(x + 1, n, x / n + 1, 0);
    } else {
      ModOfDecomposition(x + 1, n, x / n, x % n + 1);
    }
  }

  function NextPositionInt(a: int, n: int): int
  {
    if a + 1 == n then 0 else a + 1
  }

  /** After r rotations from position p the cycle stands at (p + r) mod n;
      from the first key, the current key is `keys[r mod n]`. */
  lemma {:induction false} AdvanceIsMod(p: nat, n: nat, r: nat)
    requires p < n
    ensures Advance(p, n, r) == (p + r) % n
  {
    if r > 0 {
      AdvanceIsMod(p, n, r - 1);
      ModStep(p + r - 1, n);
    }
  }

  /** n rotations bring the cycle back to where it was. */
  lemma FullCycle(p: nat, n: nat)
    requires p < n
    ensures Advance(p, n, n) == p
  {
    AdvanceIsMod(p, n, n);
    ModOfDecomposition(p + n, n, 1, p);
  }

  /** `min_interval`: the seconds between two requests for a rate of rpm
      requests a minute; no wait for a rate that is not positive. */
  function MinInterval(rpm: int): (r: real)
    ensures r >= 0.0
    ensures rpm > 0 ==> r * rpm as real == 60.0
    ensures rpm <= 0 ==> r == 0.0
  {
    if rpm > 0 then 60.0 / rpm as real else 0.0
  }

  /** The sleep of `wait_for_rate_limit` at clock time `now`. */
  function WaitTime(minInterval: real, lastRequest: real, now: real): (w: real)
    ensures w >= 0.0
    ensures minInterval > 0.0 ==> now + w >= lastRequest + minInterval
    ensures w > 0.0 ==> now + w == lastRequest + minInterval
  {
    if minInterval > 0.0 && now - lastRequest < minInterval then minInterval - (now - lastRequest) else 0.0
  }

  /** `GeminiKeyRotator`. `position` is the state of the `cycle` iterator:
      the index of the current key. */
  class KeyRotator {
    const apiKeys: seq<string>
    var currentKey: Option<string>
    var position: nat
    const rateLimitRpm: int
    var lastRequestTime: real
    const minInterval: real

    ghost predicate Valid()
      reads this
    {
      && (apiKeys == [] ==> currentKey == None && position == 0)
      && (apiKeys != [] ==> position < |apiKeys| && currentKey == Some(apiKeys[position]))
    }

    /** The first key is current, or there is none. */
    constructor(apiKeys: seq<string>, rateLimitRpm: int)
      ensures Valid()
      ensures this.apiKeys == apiKeys && position == 0
      ensures currentKey == (if apiKeys == [] then None else Some(apiKeys[0]))
      ensures this.rateLimitRpm == rateLimitRpm
      ensures lastRequestTime == 0.0 && minInterval == MinInterval(rateLimitRpm)
    {
      this.apiKeys := apiKeys;
      currentKey := if apiKeys == [] then None else Some(apiKeys[0]);
      position := 0;
      this.rateLimitRpm := rateLimitRpm;
      lastRequestTime := 0.0;
      minInterval := MinInterval(rateLimitRpm);
    }

    /** `get_current_key` */
    method GetCurrentKey() returns (key: Option<string>)
      ensures key == currentKey
    {
      key := currentKey;
    }

    /** `rotate_key`: the next key in the cycle, and nothing with one key
        or none. */
    method RotateKey()
      requires Valid()
      modifies this
      ensures Valid()
      ensures |apiKeys| > 1 ==> position == NextPosition(old(position), |apiKeys|)
      ensures |apiKeys| <= 1 ==> position == old(position)
      ensures lastRequestTime == old(lastRequestTime)
    {
      if |apiKeys| > 1 {
        position := NextPosition(position, |apiKeys|);
        currentKey := Some(apiKeys[position]);
      }
    }

    /** `wait_for_rate_limit`: sleeps `wait` seconds, read against the clock
        at `now`, and records the clock at `after`, read once the sleep is
        over. */
    method WaitForRateLimit(now: real, after: real) returns (wait: real)
      requires Valid()
      modifies this
      ensures Valid()
      ensures wait == WaitTime(minInterval, old(lastRequestTime), now)
      ensures lastRequestTime == after
      ensures position == old(position) && currentKey == old(currentKey)
    {
      wait := WaitTime(minInterval, lastRequestTime, now);
      lastRequestTime := after;
    }
  }

  // ---------------------------------------------------------------------
  // embed_text: the retry loop
  // ---------------------------------------------------------------------

  /** The position after `rotate_key` from p. */
  function Rotated(p: nat, keys: seq<string>): (q: nat)
    requires p < |keys|
    ensures q < |keys|
  {
    if |keys| > 1 then NextPosition(p, |keys|) else p
  }

  /** The retry loop from attempt `attempt` on, with the cycle at p: the
      reply and the position it leaves the cycle at. */
  function Attempts(service: EmbedService, text: string, keys: seq<string>, p: nat,
                    attempt: nat, retryCount: int): (r: (Option<Vector>, nat))
    requires p < |keys|
    ensures r.1 < |keys|
    decreases retryCount - attempt
  {
    if attempt >= retryCount then (None, p)
    else
      var reply := service(text, keys[p], attempt);
      if reply.Some? then (reply, p)
      else if attempt < retryCount - 1 then Attempts(service, text, keys, Rotated(p, keys), attempt + 1, retryCount)
      else (None, p)
  }

  /** The reply to attempt j of a call that started with the cycle at p0. */
  function Reply(service: EmbedService, text: string, keys: seq<string>, p0: nat, j: nat): Option<Vector>
    requires p0 < |keys|
  {
    service(text, keys[Advance(p0, |keys|, j)], j)
  }

  lemma RotatedIsNext(p: nat, keys: seq<string>)
    requires p < |keys|
    ensures Rotated(p, keys) == NextPosition(p, |keys|)
  {
  }

  /** From attempt a on: a reply comes back iff some attempt before
      `retryCount` succeeds; it is the reply of the first one that does,
      and the cycle was rotated once per failed attempt. When every attempt
      fails, the last one is not followed by a rotation. */
  lemma {:induction false} AttemptsFacts(service: EmbedService, text: string, keys: seq<string>,
                                         p0: nat, a: nat, retryCount: int)
    requires p0 < |keys|
    ensures var (r, p) := Attempts(service, text, keys, Advance(p0, |keys|, a), a, retryCount);
      && (r.Some? <==> exists j :: a <= j < retryCount && Reply(service, text, keys, p0, j).Some?)
      && (r.Some? ==> exists j :: a <= j < retryCount && r == Reply(service, text, keys, p0, j)
                         && p == Advance(p0, |keys|, j)
                         && forall i :: a <= i < j ==> Reply(service, text, keys, p0, i).None?)
      && (r.None? && a < retryCount ==> p == Advance(p0, |keys|, retryCount - 1))
    decreases retryCount - a
  {
    var p := Advance(p0, |keys|, a);
    if a < retryCount {
      assert service(text, keys[p], a) == Reply(service, text, keys, p0, a);
      if service(text, keys[p], a).None? && a < retryCount - 1 {
        RotatedIsNext(p, keys);
        assert Rotated(p, keys) == Advance(p0, |keys|, a + 1);
        AttemptsFacts(service, text, keys, p0, a + 1, retryCount);
        var (r, q) := Attempts(service, text, keys, Advance(p0, |keys|, a + 1), a + 1, retryCount);
        if r.Some? {
          var j :| a + 1 <= j < retryCount && r == Reply(service, text, keys, p0, j)
                   && q == Advance(p0, |keys|, j)
                   && forall i :: a + 1 <= i < j ==> Reply(service, text, keys, p0, i).None?;
          assert forall i :: a <= i < j ==> Reply(service, text, keys, p0, i).None?;
        } else {
          forall j | a <= j < retryCount ensures Reply(service, text, keys, p0, j).None? {
            if j > a {
              assert a + 1 <= j < retryCount;
            }
          }
        }
      } else if service(text, keys[p], a).None? {
        forall j | a <= j < retryCount ensures Reply(service, text, keys, p0, j).None? {
          assert j == a;
        }
      }
    }
  }

  /** One `embed_text` call with the keys `keys` and the cycle at p: the
      call fails at once when there are no keys (no rotator). */
  function EmbedOne(service: EmbedService, text: string, keys: seq<string>, p: nat, retryCount: int): (r: (Option<Vector>, nat))
    requires keys == [] || p < |keys|
    ensures keys == [] || r.1 < |keys|
  {
    if keys == [] then (None, p) else Attempts(service, text, keys, p, 0, retryCount)
  }

  /** `embed_text` on each text in order (the calls of one `gather` are
      taken one after the other), threading the cycle position. */
  function EmbedAll(service: EmbedService, texts: seq<string>, keys: seq<string>, p: nat,
                    retryCount: int): (seq<Option<Vector>>, nat)
    requires keys == [] || p < |keys|
    decreases |texts|
  {
    if texts == [] then ([], p)
    else
      var first := EmbedOne(service, texts[0], keys, p, retryCount);
      var rest := EmbedAll(service, texts[1..], keys, first.1, retryCount);
      ([first.0] + rest.0, rest.1)
  }

  /** The embedding of each text is a reply of the service to that text,
      with one of the keys on an attempt before `retryCount`. */
  ghost predicate IsReply(service: EmbedService, text: string, keys: seq<string>, retryCount: int, v: Option<Vector>)
  {
    exists k, j :: 0 <= k < |keys| && 0 <= j < retryCount && v == service(text, keys[k], j)
  }

  /** `embed_batch` returns one entry per text, in the order of the texts:
      entry i is None or the service's reply for text i; with no keys every
      entry is None. */
  lemma {:induction false} EmbedAllFacts(service: EmbedService, texts: seq<string>, keys: seq<string>,
                                         p: nat, retryCount: int)
    requires keys == [] || p < |keys|
    ensures var (es, q) := EmbedAll(service, texts, keys, p, retryCount);
      && |es| == |texts|
      && (keys == [] ==> q == p)
      && (keys != [] ==> q < |keys|)
      && forall i :: 0 <= i < |es| && es[i].Some? ==> keys != [] && IsReply(service, texts[i], keys, retryCount, es[i])
    decreases |texts|
  {
    if texts != [] {
      var (e, q) := EmbedOne(service, texts[0], keys, p, retryCount);
      EmbedAllFacts(service, texts[1..], keys, q, retryCount);
      var (es, q') := EmbedAll(service, texts[1..], keys, q, retryCount);
      if e.Some? {
        assert keys != [];
        assert Advance(p, |keys|, 0) == p;
        AttemptsFacts(service, texts[0], keys, p, 0, retryCount);
        var j :| 0 <= j < retryCount && e == Reply(service, texts[0], keys, p, j);
        assert e == service(texts[0], keys[Advance(p, |keys|, j)], j);
      }
      forall i | 0 <= i < |[e] + es| && ([e] + es)[i].Some?
        ensures keys != [] && IsReply(service, texts[i], keys, retryCount, ([e] + es)[i])
      {
        if i > 0 {
          assert ([e] + es)[i] == es[i - 1] && texts[i] == texts[1..][i - 1];
        }
      }
    }
  }

  lemma EmbedAllSingle(service: EmbedService, text: string, keys: seq<string>, p: nat, retryCount: int)
    requires keys == [] || p < |keys|
    ensures EmbedAll(service, [text], keys, p, retryCount)
         == ([EmbedOne(service, text, keys, p, retryCount).0], EmbedOne(service, text, keys, p, retryCount).1)
  {
    var first := EmbedOne(service, text, keys, p, retryCount);
    assert [text][1..] == [];
    assert EmbedAll(service, [], keys, first.1, retryCount) == ([], first.1);
    assert [first.0] + [] == [first.0];
  }

  /** Embedding a + b is embedding a, then b from where a left the cycle. */
  lemma {:induction false} EmbedAllAppend(service: EmbedService, a: seq<string>, b: seq<string>,
                                          keys: seq<string>, p: nat, retryCount: int)
    requires keys == [] || p < |keys|
    ensures var (ea, q) := EmbedAll(service, a, keys, p, retryCount);
      && (keys == [] || q < |keys|)
      && EmbedAll(service, a + b, keys, p, retryCount) == (ea + EmbedAll(service, b, keys, q, retryCount).0,
                                                           EmbedAll(service, b, keys, q, retryCount).1)
    decreases |a|
  {
    EmbedAllFacts(service, a, keys, p, retryCount);
    if a == [] {
      assert a + b == b;
      assert EmbedAll(service, a, keys, p, retryCount) == ([], p);
      var r := EmbedAll(service, b, keys, p, retryCount);
      assert [] + r.0 == r.0;
      assert (r.0, r.1) == r;
    } else {
      var first := EmbedOne(service, a[0], keys, p, retryCount);
      assert (a + b)[0] == a[0] && (a + b)[1..] == a[1..] + b;
      EmbedAllAppend(service, a[1..], b, keys, first.1, retryCount);
      var ra := EmbedAll(service, a[1..], keys, first.1, retryCount);
      assert [first.0] + (ra.0 + EmbedAll(service, b, keys, ra.1, retryCount).0)
          == ([first.0] + ra.0) + EmbedAll(service, b, keys, ra.1, retryCount).0;
    }
  }

  // ---------------------------------------------------------------------
  // embed_chunks: keeping the chunks whose embedding came back
  // ---------------------------------------------------------------------

  /** The indices below n whose embedding is present, in increasing order. */
  function KeptIndices(embeddings: seq<Option<Vector>>, n: nat): (r: seq<nat>)
    requires n <= |embeddings|
    ensures forall m :: 0 <= m < |r| ==> r[m] < n && embeddings[r[m]].Some?
    ensures forall m, m' :: 0 <= m < m' < |r| ==> r[m] < r[m']
  {
    if n == 0 then []
    else KeptIndices(embeddings, n - 1) + (if embeddings[n - 1].Some? then [n - 1] else [])
  }

  /** Every index with an embedding is kept. */
  lemma {:induction false} KeptIndicesComplete(embeddings: seq<Option<Vector>>, n: nat, i: nat)
    requires n <= |embeddings| && i < n && embeddings[i].Some?
    ensures i in KeptIndices(embeddings, n)
  {
    if i < n - 1 {
      KeptIndicesComplete(embeddings, n - 1, i);
    }
  }

  /** The pairs of the zip of chunks and embeddings, below n, whose
      embedding is present. */
  function KeptPairs(chunks: seq<Chunking.Chunk>, embeddings: seq<Option<Vector>>, n: nat): seq<(Chunking.Chunk, Vector)>
    requires n <= |chunks| && n <= |embeddings|
  {
    if n == 0 then []
    else KeptPairs(chunks, embeddings, n - 1)
         + (if embeddings[n - 1].Some? then [(chunks[n - 1], embeddings[n - 1].value)] else [])
  }

  /** The kept pairs are the chunks at the kept indices with their
      embeddings, in chunk order. */
  lemma {:induction false} KeptPairsAtIndices(chunks: seq<Chunking.Chunk>, embeddings: seq<Option<Vector>>, n: nat)
    requires n <= |chunks| && n <= |embeddings|
    ensures var r := KeptPairs(chunks, embeddings, n);
      var ks := KeptIndices(embeddings, n);
      && |r| == |ks|
      && forall m :: 0 <= m < |r| ==> r[m] == (chunks[ks[m]], embeddings[ks[m]].value)
  {
    if n > 0 {
      KeptPairsAtIndices(chunks, embeddings, n - 1);
    }
  }

  // ---------------------------------------------------------------------
  // store_chunks_in_qdrant: points and upsert batches
  // ---------------------------------------------------------------------

  /** A point of the vector store. */
  datatype Point = Point(id: int, vector: Vector, payload: map<string, Retriever.Value>)

  const Pow63: int := 0x8000_0000_0000_0000
  const UpsertBatchSize: nat := 100

  /** The fixed fields of a chunk's payload. */
  function FixedPayload(c: Chunking.Chunk): map<string, Retriever.Value>
  {
    map["chunk_id" := Retriever.VStr(c.chunkId), "doc_id" := Retriever.VStr(c.docId),
        "text" := Retriever.VStr(c.text), "language" := Retriever.VStr(c.language),
        "page_num" := Retriever.VInt(c.pageNum), "start_char" := Retriever.VInt(c.startChar),
        "end_char" := Retriever.VInt(c.endChar)]
  }

  /** The payload: the fixed fields, then `**chunk.metadata`. */
  function Payload(c: Chunking.Chunk): map<string, Retriever.Value>
  {
    FixedPayload(c) + c.metadata
  }

  /** Every metadata key is in the payload with the metadata's value, even
      when it names a fixed field; every fixed field the metadata does not
      name keeps the chunk's value; nothing else is there. */
  lemma PayloadFacts(c: Chunking.Chunk)
    ensures Payload(c).Keys == FixedPayload(c).Keys + c.metadata.Keys
    ensures forall k :: k in c.metadata ==> Payload(c)[k] == c.metadata[k]
    ensures forall k :: k in FixedPayload(c) && k !in c.metadata ==> Payload(c)[k] == FixedPayload(c)[k]
    ensures "text" !in c.metadata ==> Payload(c)["text"] == Retriever.VStr(c.text)
  {
  }

  /** The point for an embedded chunk; `hash` is Python's `hash` of the
      chunk id. */
  function ToPoint(hash: string -> int, item: (Chunking.Chunk, Vector)): (p: Point)
    ensures 0 <= p.id < Pow63
    ensures p.vector == item.1
  {
    Point(hash(item.0.chunkId) % Pow63, item.1, Payload(item.0))
  }

  /** The points of the embedded chunks, in order. */
  function Points(hash: string -> int, embedded: seq<(Chunking.Chunk, Vector)>): (ps: seq<Point>)
    ensures |ps| == |embedded|
    ensures forall i :: 0 <= i < |ps| ==> ps[i] == ToPoint(hash, embedded[i])
  {
    Map(embedded, item => ToPoint(hash, item))
  }

  lemma PointsSnoc(hash: string -> int, embedded: seq<(Chunking.Chunk, Vector)>, k: nat)
    requires k < |embedded|
    ensures Points(hash, embedded[..k + 1]) == Points(hash, embedded[..k]) + [ToPoint(hash, embedded[k])]
  {
  }

  /** One turn of the upsert loop: the batch at i, then the batches of the
      rest. */
  lemma PiecesStep<T>(lst: seq<T>, i: nat, size: nat)
    requires i < |lst| && size > 0
    ensures var batch := PySlice(lst, i, i + size);
      && i + |batch| <= |lst|
      && Utils.Pieces(lst[i..], size) == [batch] + Utils.Pieces(lst[i + |batch|..], size)
  {
    if |lst| - i > size {
      assert lst[i..][..size] == lst[i..i + size];
      assert lst[i..][size..] == lst[i + size..];
    } else {
      assert lst[i + |PySlice(lst, i, i + size)|..] == [];
    }
  }

  /** One more batch moves from the pieces still to cut to the ones cut. */
  lemma PiecesAccStep<T>(lst: seq<T>, i: nat, size: nat, acc: seq<seq<T>>)
    requires i < |lst| && size > 0
    requires acc + Utils.Pieces(lst[i..], size) == Utils.Pieces(lst, size)
    ensures var batch := PySlice(lst, i, i + size);
      && i + |batch| <= |lst|
      && (acc + [batch]) + Utils.Pieces(lst[i + |batch|..], size) == Utils.Pieces(lst, size)
  {
    var batch := PySlice(lst, i, i + size);
    var rest := Utils.Pieces(lst[i + |batch|..], size);
    PiecesStep(lst, i, size);
    ConcatAssoc(acc, [batch], rest);
  }

  /** The batch at i extends the prefix before it and is not empty. */
  lemma BatchExtends<T>(s: seq<T>, i: nat, size: nat)
    requires i < |s| && size > 0
    ensures var batch := PySlice(s, i, i + size);
      && 0 < |batch| && i + |batch| <= |s| && s[..i + |batch|] == s[..i] + batch
  {
  }

  /** One batch of `embed_batch`: the embeddings so far, then the batch's,
      are those of the texts up to the batch's end. */
  lemma BatchStep(service: EmbedService, texts: seq<string>, i: nat, size: nat, keys: seq<string>, p0: nat,
                  done: seq<Option<Vector>>, q: nat, batchDone: seq<Option<Vector>>, q': nat)
    requires i < |texts| && size > 0 && (keys == [] || p0 < |keys|)
    requires (done, q) == EmbedAll(service, texts[..i], keys, p0, DefaultRetryCount)
    requires keys == [] || q < |keys|
    requires (batchDone, q') == EmbedAll(service, PySlice(texts, i, i + size), keys, q, DefaultRetryCount)
    ensures var batch := PySlice(texts, i, i + size);
      && 0 < |batch| && i + |batch| <= |texts|
      && (done + batchDone, q') == EmbedAll(service, texts[..i + |batch|], keys, p0, DefaultRetryCount)
  {
    var batch := PySlice(texts, i, i + size);
    BatchExtends(texts, i, size);
    EmbedAllAppend(service, texts[..i], batch, keys, p0, DefaultRetryCount);
  }

  class EmbeddingAgent {
    const keyRotator: KeyRotator?

    ghost function Keys(): seq<string>
      reads this, keyRotator
    {
      if keyRotator == null then [] else keyRotator.apiKeys
    }

    ghost function Position(): nat
      reads this, keyRotator
    {
      if keyRotator == null then 0 else keyRotator.position
    }

    ghost predicate Valid()
      reads this, keyRotator
    {
      keyRotator != null ==> keyRotator.Valid() && keyRotator.apiKeys != []
    }

    /** `__init__`: a rotator only when there are keys. */
    constructor(apiKeys: seq<string>, rateLimitRpm: int)
      ensures Valid()
      ensures apiKeys == [] <==> keyRotator == null
      ensures Keys() == apiKeys && Position() == 0
      ensures keyRotator != null ==> fresh(keyRotator)
    {
      if apiKeys == [] {
        keyRotator := null;
      } else {
        keyRotator := new KeyRotator(apiKeys, rateLimitRpm);
      }
    }

    /** `embed_text` */
    method EmbedText(text: string, retryCount: int, service: EmbedService) returns (r: Option<Vector>)
      requires Valid()
      modifies keyRotator
      ensures Valid() && Keys() == old(Keys())
      ensures (r, Position()) == EmbedOne(service, text, Keys(), old(Position()), retryCount)
    {
      if keyRotator == null {
        return None;
      }
      var keys := keyRotator.apiKeys;
      ghost var p0 := keyRotator.position;
      var attempt: nat := 0;
      while attempt < retryCount
        invariant keyRotator.Valid() && keyRotator.apiKeys == keys
        invariant Attempts(service, text, keys, keyRotator.position, attempt, retryCount)
               == Attempts(service, text, keys, p0, 0, retryCount)
        decreases retryCount - attempt
      {
        var key := keyRotator.GetCurrentKey();
        var reply := service(text, key.value, attempt);
        if reply.Some? {
          return reply;
        }
        if attempt < retryCount - 1 {
          keyRotator.RotateKey();
        } else {
          return None;
        }
        attempt := attempt + 1;
      }
      return None;
    }

    /** `embed_batch`: the texts in batches of `batch_size`; `range` rejects
        a zero step, and a negative one gives no batches. */
    method EmbedBatch(texts: seq<string>, batchSize: int, service: EmbedService)
      returns (embeddings: seq<Option<Vector>>)
      requires Valid() && batchSize != 0
      modifies keyRotator
      ensures Valid() && Keys() == old(Keys())
      ensures batchSize < 0 ==> embeddings == [] && Position() == old(Position())
      ensures batchSize > 0 ==> (embeddings, Position()) == EmbedAll(service, texts, Keys(), old(Position()), DefaultRetryCount)
    {
      embeddings := [];
      if batchSize < 0 {
        return;
      }
      embeddings := EmbedBatches(texts, batchSize, service);
    }

    /** The loop of `embed_batch` over the batch start positions. */
    method EmbedBatches(texts: seq<string>, batchSize: nat, service: EmbedService)
      returns (embeddings: seq<Option<Vector>>)
      requires Valid() && batchSize > 0
      modifies keyRotator
      ensures Valid() && Keys() == old(Keys())
      ensures (embeddings, Position()) == EmbedAll(service, texts, Keys(), old(Position()), DefaultRetryCount)
    {
      embeddings := [];
      ghost var keys := Keys();
      ghost var p0 := Position();
      var i: nat := 0;
      while i < |texts|
        invariant Valid() && Keys() == keys
        invariant i <= |texts|
        invariant (embeddings, Position()) == EmbedAll(service, texts[..i], keys, p0, DefaultRetryCount)
        decreases |texts| - i
      {
        embeddings, i := EmbedNextBatch(texts, i, batchSize, service, embeddings, keys, p0);
      }
      assert texts[..i] == texts;
    }

    /** One turn of the loop of `embed_batch`: the batch starting at i. */
    method EmbedNextBatch(texts: seq<string>, i: nat, batchSize: nat, service: EmbedService,
                          embeddings: seq<Option<Vector>>, ghost keys: seq<string>, ghost p0: nat)
      returns (embeddings': seq<Option<Vector>>, i': nat)
      requires Valid() && Keys() == keys && i < |texts| && batchSize > 0 && (keys == [] || p0 < |keys|)
      requires (embeddings, Position()) == EmbedAll(service, texts[..i], keys, p0, DefaultRetryCount)
      modifies keyRotator
      ensures Valid() && Keys() == keys && i < i' <= |texts|
      ensures (embeddings', Position()) == EmbedAll(service, texts[..i'], keys, p0, DefaultRetryCount)
    {
      var batch := PySlice(texts, i, i + batchSize);
      ghost var q := Position();
      var batchEmbeddings := Gather(batch, service);
      BatchStep(service, texts, i, batchSize, keys, p0, embeddings, q, batchEmbeddings, Position());
      embeddings' := embeddings + batchEmbeddings;
      i' := i + |batch|;
    }

    /** `asyncio.gather` over the `embed_text` calls of one batch, taken
        one after the other. */
    method Gather(batch: seq<string>, service: EmbedService)
      returns (embeddings: seq<Option<Vector>>)
      requires Valid()
      modifies keyRotator
      ensures Valid() && Keys() == old(Keys())
      ensures (embeddings, Position()) == EmbedAll(service, batch, Keys(), old(Position()), DefaultRetryCount)
    {
      ghost var keys := Keys();
      ghost var p0 := Position();
      embeddings := [];
      var j: nat := 0;
      while j < |batch|
        invariant Valid() && Keys() == keys
        invariant j <= |batch|
        invariant (embeddings, Position()) == EmbedAll(service, batch[..j], keys, p0, DefaultRetryCount)
        decreases |batch| - j
      {
        EmbedAllAppend(service, batch[..j], [batch[j]], keys, p0, DefaultRetryCount);
        EmbedAllSingle(service, batch[j], keys, Position(), DefaultRetryCount);
        assert batch[..j + 1] == batch[..j] + [batch[j]];
        var e := EmbedText(batch[j], DefaultRetryCount, service);
        embeddings := embeddings + [e];
        j := j + 1;
      }
      assert batch[..j] == batch;
    }

    /** `embed_chunks`: the chunks whose embedding came back, each with its
        embedding, in chunk order. */
    method EmbedChunks(chunks: seq<Chunking.Chunk>, service: EmbedService)
      returns (embedded: seq<(Chunking.Chunk, Vector)>)
      requires Valid()
      modifies keyRotator
      ensures Valid() && Keys() == old(Keys())
      ensures var (es, p) := EmbedAll(service, Map(chunks, (c: Chunking.Chunk) => c.text), Keys(), old(Position()), DefaultRetryCount);
        && Position() == p
        && |es| == |chunks|
        && embedded == KeptPairs(chunks, es, |chunks|)
    {
      var texts := Map(chunks, (c: Chunking.Chunk) => c.text);
      var embeddings := EmbedBatch(texts, DefaultBatchSize, service);
      EmbedAllFacts(service, texts, Keys(), old(Position()), DefaultRetryCount);
      embedded := [];
      var k: nat := 0;
      while k < |chunks|
        invariant k <= |chunks|
        invariant embedded == KeptPairs(chunks, embeddings, k)
      {
        if embeddings[k].Some? {
          embedded := embedded + [(chunks[k], embeddings[k].value)];
        }
        k := k + 1;
      }
    }

    /** `store_chunks_in_qdrant`: the upsert calls it makes, in order;
        none for an empty list. */
    method StoreChunksInQdrant(embedded: seq<(Chunking.Chunk, Vector)>, hash: string -> int)
      returns (upserts: seq<seq<Point>>)
      ensures upserts == Utils.Pieces(Points(hash, embedded), UpsertBatchSize)
      ensures Flatten(upserts) == Points(hash, embedded)
      ensures |upserts| * 100 >= |embedded| > (|upserts| - 1) * 100
    {
      var points: seq<Point> := [];
      for k := 0 to |embedded|
        invariant points == Points(hash, embedded[..k])
      {
        PointsSnoc(hash, embedded, k);
        points := points + [ToPoint(hash, embedded[k])];
      }
      assert embedded[..|embedded|] == embedded;
      Utils.PiecesFacts(points, UpsertBatchSize);
      upserts := [];
      if embedded == [] {
        return;
      }
      upserts := UpsertBatches(points);
    }

    /** The `for i in range(0, len(points), batch_size)` loop: one upsert
        per batch of at most 100 points, in order. */
    method UpsertBatches(points: seq<Point>) returns (upserts: seq<seq<Point>>)
      ensures upserts == Utils.Pieces(points, UpsertBatchSize)
    {
      upserts := [];
      var i: nat := 0;
      while i < |points|
        invariant i <= |points|
        invariant upserts + Utils.Pieces(points[i..], UpsertBatchSize) == Utils.Pieces(points, UpsertBatchSize)
        decreases |points| - i
      {
        var batch := PySlice(points, i, i + UpsertBatchSize);
        PiecesAccStep(points, i, UpsertBatchSize, upserts);
        upserts := upserts + [batch];
        i := i + |batch|;
      }
      assert points[i..] == [];
    }

    /** `process_document`: embed the chunks, then store those that came
        back. */
    method ProcessDocument(chunks: seq<Chunking.Chunk>, service: EmbedService, hash: string -> int)
      returns (upserts: seq<seq<Point>>)
      requires Valid()
      modifies keyRotator
      ensures Valid() && Keys() == old(Keys())
      ensures var es := EmbedAll(service, Map(chunks, (c: Chunking.Chunk) => c.text), Keys(), old(Position()), DefaultRetryCount).0;
        |es| == |chunks| && Flatten(upserts) == Points(hash, KeptPairs(chunks, es, |chunks|))
    {
      var embedded := EmbedChunks(chunks, service);
      upserts := StoreChunksInQdrant(embedded, hash);
    }
  }
}
