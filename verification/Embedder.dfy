/** The part of the retrieval adapter that turns texts into vectors through the embedding upstream. */
module Embedders {
  import opened Prelude
  import opened Segments
  import opened Embedding

  function Estimated(segment: string): (tokens: nat)
    ensures tokens >= 1 && (|segment| < 8 ==> tokens == 1) && (|segment| >= 4 ==> 4 * tokens <= |segment| < 4 * tokens + 4)
  {
    if |segment| / 4 < 1 then 1 else |segment| / 4
  }

  function Tokens(segments: seq<string>, batch: seq<nat>): nat
    requires Below(batch, |segments|)
  {
    if batch == [] then 0 else Tokens(segments, batch[..|batch| - 1]) + Estimated(segments[batch[|batch| - 1]])
  }

  function At<T>(xs: seq<T>, positions: seq<nat>): seq<T>
    requires Below(positions, |xs|)
  {
    seq(|positions|, i requires 0 <= i < |positions| => xs[positions[i]])
  }

  ghost predicate Below(positions: seq<nat>, n: nat) {
    forall i :: 0 <= i < |positions| ==> positions[i] < n
  }

  ghost predicate Increasing(positions: seq<nat>) {
    forall i, j :: 0 <= i < j < |positions| ==> positions[i] < positions[j]
  }

  /** One upstream request: not empty, within the item limit, and within the token limit unless it is a single segment. */
  ghost predicate Legal(setup: Setup, segments: seq<string>, batch: seq<nat>) {
    && batch != [] && Below(batch, |segments|) && |batch| <= setup.batchItems
    && (|batch| == 1 || Tokens(segments, batch) <= setup.batchTokens)
  }

  /** A batch that could not have taken one more segment. */
  ghost predicate Full(setup: Setup, segments: seq<string>, batch: seq<nat>, next: nat) {
    && Below(batch, |segments|) && next < |segments|
    && (|batch| >= setup.batchItems || Tokens(segments, batch) + Estimated(segments[next]) > setup.batchTokens)
  }

  ghost predicate FullBefore(setup: Setup, segments: seq<string>, batches: seq<seq<nat>>, k: nat)
    requires 0 < k < |batches|
  {
    batches[k] != [] && Full(setup, segments, batches[k - 1], batches[k][0])
  }

  ghost predicate LegalBatches(setup: Setup, segments: seq<string>, batches: seq<seq<nat>>) {
    && (forall k :: 0 <= k < |batches| ==> Legal(setup, segments, batches[k]))
    && (forall k :: 0 < k < |batches| ==> FullBefore(setup, segments, batches, k))
  }

  /** Each of the first n positions is a cache hit or else stands once in the list, which is in order. */
  ghost predicate Covers(positions: seq<nat>, n: nat, hits: set<nat>) {
    && Increasing(positions) && Below(positions, n) && (forall j <- hits :: j < n)
    && (forall j :: 0 <= j < n ==> (j in hits <==> j !in positions))
  }

  lemma TokensOneMore(segments: seq<string>, batch: seq<nat>, p: nat)
    requires Below(batch, |segments|) && p < |segments|
    ensures Below(batch + [p], |segments|) && Tokens(segments, batch + [p]) == Tokens(segments, batch) + Estimated(segments[p])
  {
    assert (batch + [p])[..|batch|] == batch;
  }

  lemma BatchOfOne(setup: Setup, segments: seq<string>, p: nat)
    requires p < |segments| && setup.batchItems >= 1
    ensures Legal(setup, segments, [p]) && Tokens(segments, [p]) == Estimated(segments[p])
  {
    TokensOneMore(segments, [], p);
    assert [] + [p] == [p];
  }

  lemma LongerBatch(setup: Setup, segments: seq<string>, batch: seq<nat>, p: nat)
    requires Legal(setup, segments, batch) && p < |segments| && !Full(setup, segments, batch, p)
    ensures Legal(setup, segments, batch + [p]) && Tokens(segments, batch + [p]) == Tokens(segments, batch) + Estimated(segments[p])
    ensures (batch + [p])[0] == batch[0]
  {
    TokensOneMore(segments, batch, p);
  }

  lemma HitCovered(positions: seq<nat>, n: nat, hits: set<nat>)
    requires Covers(positions, n, hits)
    ensures Covers(positions, n + 1, hits + {n})
  {
  }

  lemma SentCovered(positions: seq<nat>, n: nat, hits: set<nat>)
    requires Covers(positions, n, hits) && n !in hits
    ensures Covers(positions + [n], n + 1, hits)
  {
  }

  lemma StartBatch(setup: Setup, segments: seq<string>, sent: seq<seq<nat>>, p: nat)
    requires LegalBatches(setup, segments, sent) && p < |segments| && setup.batchItems >= 1
    requires sent == [] || Full(setup, segments, sent[|sent| - 1], p)
    ensures LegalBatches(setup, segments, sent + [[p]])
  {
    BatchOfOne(setup, segments, p);
    forall k | 0 < k < |sent| + 1 ensures FullBefore(setup, segments, sent + [[p]], k) {
      if k < |sent| {
        assert FullBefore(setup, segments, sent, k);
      }
    }
  }

  lemma ExtendBatch(setup: Setup, segments: seq<string>, sent: seq<seq<nat>>, batch: seq<nat>, p: nat)
    requires LegalBatches(setup, segments, sent + [batch]) && p < |segments| && !Full(setup, segments, batch, p)
    ensures LegalBatches(setup, segments, sent + [batch + [p]])
  {
    var before, after := sent + [batch], sent + [batch + [p]];
    assert before[|sent|] == batch;
    LongerBatch(setup, segments, batch, p);
    forall k | 0 <= k < |after| ensures Legal(setup, segments, after[k]) {
      assert k < |sent| ==> after[k] == before[k];
    }
    forall k | 0 < k < |after| ensures FullBefore(setup, segments, after, k) {
      assert FullBefore(setup, segments, before, k);
      assert after[k - 1] == before[k - 1] && after[k][0] == before[k][0];
    }
  }

  /** A cache hit needs no request: its vector was known before, or the same text was sent earlier. */
  ghost predicate Explained(setup: Setup, model: string, segments: seq<string>, known: set<CacheKey>, positions: seq<nat>, hits: set<nat>) {
    && Below(positions, |segments|)
    && (forall j <- hits :: j < |segments| && (KeyOf(setup, model, segments[j]) in known || SentEarlier(segments, positions, j)))
    && (forall i :: 0 <= i < |positions| ==> KeyOf(setup, model, segments[positions[i]]) !in known)
  }

  ghost predicate SentEarlier(segments: seq<string>, positions: seq<nat>, j: nat)
    requires j < |segments| && Below(positions, |segments|)
  {
    exists i :: 0 <= i < |positions| && positions[i] < j && segments[positions[i]] == segments[j]
  }

  lemma HitExplained(setup: Setup, model: string, segments: seq<string>, known: set<CacheKey>, positions: seq<nat>, hits: set<nat>, n: nat)
    requires Explained(setup, model, segments, known, positions, hits) && Below(positions, n) && n < |segments|
    requires Injective(setup.hash)
    requires KeyOf(setup, model, segments[n]) in known + KeySet(setup, model, segments, positions)
    ensures Explained(setup, model, segments, known, positions, hits + {n})
  {
    if KeyOf(setup, model, segments[n]) !in known {
      var p :| p in positions && KeyOf(setup, model, segments[p]) == KeyOf(setup, model, segments[n]);
      var i :| 0 <= i < |positions| && positions[i] == p;
      assert SentEarlier(segments, positions, n);
    }
  }

  lemma MoreExplained(setup: Setup, model: string, segments: seq<string>, known: set<CacheKey>, positions: seq<nat>, hits: set<nat>, n: nat)
    requires Explained(setup, model, segments, known, positions, hits) && n < |segments|
    requires KeyOf(setup, model, segments[n]) !in known
    ensures Explained(setup, model, segments, known, positions + [n], hits)
  {
    forall j | j in hits && SentEarlier(segments, positions, j) ensures SentEarlier(segments, positions + [n], j) {
      var i :| 0 <= i < |positions| && positions[i] < j && segments[positions[i]] == segments[j];
      assert (positions + [n])[i] == positions[i];
    }
  }

  ghost function KeySet(setup: Setup, model: string, segments: seq<string>, positions: seq<nat>): set<CacheKey>
    requires Below(positions, |segments|)
  {
    set p | p in positions :: KeyOf(setup, model, segments[p])
  }

  function Pending(batches: seq<seq<nat>>, batch: seq<nat>): seq<seq<nat>> {
    if batch == [] then batches else batches + [batch]
  }

  ghost predicate AllBelow(batches: seq<seq<nat>>, n: nat) {
    forall k :: 0 <= k < |batches| ==> Below(batches[k], n)
  }

  ghost function Requests(model: string, segments: seq<string>, batches: seq<seq<nat>>): seq<(string, seq<string>)>
    requires AllBelow(batches, |segments|)
  {
    seq(|batches|, k requires 0 <= k < |batches| => (model, At(segments, batches[k])))
  }

  /** The state of the loop over the segments: `batches` are sent, `batch` waits, the first n segments are looked at. */
  ghost predicate Queue(setup: Setup, model: string, segments: seq<string>, n: nat, known: set<CacheKey>,
                        batches: seq<seq<nat>>, batch: seq<nat>, tokens: nat, hits: set<nat>) {
    && n <= |segments| && Below(batch, |segments|) && tokens == Tokens(segments, batch)
    && LegalBatches(setup, segments, batches) && LegalBatches(setup, segments, Pending(batches, batch)) && (batch == [] ==> batches == [])
    && Covers(Joined(batches) + batch, n, hits)
    && Explained(setup, model, segments, known, Joined(batches) + batch, hits)
  }

  predicate MustSend(setup: Setup, segment: string, batch: seq<nat>, tokens: nat) {
    |batch| >= setup.batchItems || tokens + Estimated(segment) > setup.batchTokens
  }

  lemma JoinedPending(batches: seq<seq<nat>>, batch: seq<nat>)
    ensures Joined(Pending(batches, batch)) == Joined(batches) + batch
  {
    if batch != [] {
      JoinedOneMore(batches, batch);
    }
  }

  lemma QueueHit(setup: Setup, model: string, segments: seq<string>, n: nat, known: set<CacheKey>,
                 batches: seq<seq<nat>>, batch: seq<nat>, tokens: nat, hits: set<nat>)
    requires Queue(setup, model, segments, n, known, batches, batch, tokens, hits) && n < |segments| && Injective(setup.hash)
    requires KeyOf(setup, model, segments[n]) in known + KeySet(setup, model, segments, Joined(batches) + batch)
    ensures Queue(setup, model, segments, n + 1, known, batches, batch, tokens, hits + {n})
  {
    HitCovered(Joined(batches) + batch, n, hits);
    HitExplained(setup, model, segments, known, Joined(batches) + batch, hits, n);
  }

  lemma QueueMore(setup: Setup, model: string, segments: seq<string>, n: nat, known: set<CacheKey>,
                  batches: seq<seq<nat>>, batch: seq<nat>, tokens: nat, hits: set<nat>)
    requires Queue(setup, model, segments, n, known, batches, batch, tokens, hits) && n < |segments| && setup.batchItems >= 1
    requires KeyOf(setup, model, segments[n]) !in known && (batch == [] || !MustSend(setup, segments[n], batch, tokens))
    ensures Queue(setup, model, segments, n + 1, known, batches, batch + [n], tokens + Estimated(segments[n]), hits)
  {
    assert Joined(batches) + (batch + [n]) == Joined(batches) + batch + [n];
    SentCovered(Joined(batches) + batch, n, hits);
    MoreExplained(setup, model, segments, known, Joined(batches) + batch, hits, n);
    TokensOneMore(segments, batch, n);
    if batch == [] {
      StartBatch(setup, segments, batches, n);
    } else {
      ExtendBatch(setup, segments, batches, batch, n);
    }
  }

  lemma QueueFlushed(setup: Setup, model: string, segments: seq<string>, n: nat, known: set<CacheKey>,
                     batches: seq<seq<nat>>, batch: seq<nat>, tokens: nat, hits: set<nat>)
    requires Queue(setup, model, segments, n, known, batches, batch, tokens, hits) && n < |segments| && setup.batchItems >= 1
    requires KeyOf(setup, model, segments[n]) !in known && MustSend(setup, segments[n], batch, tokens) && batch != []
    ensures Queue(setup, model, segments, n + 1, known, batches + [batch], [n], Estimated(segments[n]), hits)
  {
    JoinedOneMore(batches, batch);
    SentCovered(Joined(batches) + batch, n, hits);
    MoreExplained(setup, model, segments, known, Joined(batches) + batch, hits, n);
    StartBatch(setup, segments, batches + [batch], n);
    BatchOfOne(setup, segments, n);
  }

  /** The vector a segment stands for. */
  function UnitOf(setup: Setup, model: string, text: string): Vector {
    Normalized(setup.sqrt, setup.embed(model, text))
  }

  function KeyOf(setup: Setup, model: string, text: string): CacheKey {
    (model, setup.hash(text))
  }

  function KeysOf(setup: Setup, model: string, segments: seq<string>): seq<CacheKey> {
    seq(|segments|, i requires 0 <= i < |segments| => KeyOf(setup, model, segments[i]))
  }

  /** A cached vector is that of the one text with its digest. */
  ghost predicate Vouched(setup: Setup, key: CacheKey, v: Vector) {
    exists t :: key.1 == setup.hash(t) && v == UnitOf(setup, key.0, t)
  }

  lemma VouchedIsUnit(setup: Setup, model: string, text: string, v: Vector)
    requires Injective(setup.hash) && Vouched(setup, KeyOf(setup, model, text), v)
    ensures v == UnitOf(setup, model, text)
  {
  }

  ghost predicate Replies(setup: Setup, model: string, input: seq<string>, reply: Reply) {
    reply.Data? ==> Positional((t: string) => setup.embed(model, t), input, reply.items)
  }

  /** A good entry of a reply is about the segment at its place in the batch. */
  lemma EntryIsRight(setup: Setup, model: string, segments: seq<string>, positions: seq<nat>, reply: Reply, k: nat)
    requires Below(positions, |segments|) && reply.Data? && Replies(setup, model, At(segments, positions), reply)
    requires k < Answered(reply.items, |positions|) && InOrder(reply.items)[k].embedding != []
    ensures Normalized(setup.sqrt, InOrder(reply.items)[k].embedding) == UnitOf(setup, model, segments[positions[k]])
  {
    assert At(segments, positions)[k] == segments[positions[k]];
  }

  ghost predicate FullReply(input: seq<string>, reply: Reply) {
    reply.Data? && |reply.items| >= |input| && forall i :: 0 <= i < |input| ==> InOrder(reply.items)[i].embedding != []
  }

  function SegmentsIn(setup: Setup, text: string): seq<string> {
    Segmented(text, setup.segmentTokens, setup.isSpace)
  }

  function SegmentsOf(setup: Setup, texts: seq<string>): seq<string> {
    if texts == [] then [] else SegmentsOf(setup, texts[..|texts| - 1]) + SegmentsIn(setup, texts[|texts| - 1])
  }

  function UnitsOf(setup: Setup, model: string, segments: seq<string>): seq<Vector> {
    seq(|segments|, i requires 0 <= i < |segments| => UnitOf(setup, model, segments[i]))
  }

  /** What a text is to be answered with: the merge of the vectors of its segments. */
  ghost function Answer(setup: Setup, model: string, text: string): Option<Vector> {
    Merged(setup.sqrt, UnitsOf(setup, model, SegmentsIn(setup, text)))
  }

  lemma SegmentsPrefix(setup: Setup, texts: seq<string>)
    requires texts != []
    ensures SegmentsOf(setup, texts[..|texts| - 1]) <= SegmentsOf(setup, texts)
  {
  }

  lemma {:induction false} SegmentsGrow(setup: Setup, texts: seq<string>, i: nat)
    requires i <= |texts|
    ensures SegmentsOf(setup, texts[..i]) <= SegmentsOf(setup, texts)
  {
    if i == |texts| {
      assert texts[..i] == texts;
    } else {
      SegmentsGrow(setup, texts[..|texts| - 1], i);
      assert texts[..|texts| - 1][..i] == texts[..i];
      SegmentsPrefix(setup, texts);
    }
  }

  /** The segments of text i stand together, behind those of the texts before it. */
  lemma SegmentsOfText(setup: Setup, texts: seq<string>, i: nat)
    requires i < |texts|
    ensures var from, parts, all := |SegmentsOf(setup, texts[..i])|, SegmentsIn(setup, texts[i]), SegmentsOf(setup, texts);
            from + |parts| == |SegmentsOf(setup, texts[..i + 1])| <= |all| && all[from..from + |parts|] == parts
  {
    assert texts[..i + 1][..i] == texts[..i];
    assert SegmentsOf(setup, texts[..i + 1]) == SegmentsOf(setup, texts[..i]) + SegmentsIn(setup, texts[i]);
    SegmentsGrow(setup, texts, i + 1);
  }

  lemma UnitsOfSlice(setup: Setup, model: string, segments: seq<string>, from: nat, to: nat)
    requires from <= to <= |segments|
    ensures UnitsOf(setup, model, segments)[from..to] == UnitsOf(setup, model, segments[from..to])
  {
  }

  lemma UnitsOfText(setup: Setup, model: string, texts: seq<string>, i: nat)
    requires i < |texts|
    ensures var from, parts, all := |SegmentsOf(setup, texts[..i])|, SegmentsIn(setup, texts[i]), SegmentsOf(setup, texts);
            && from + |parts| == |SegmentsOf(setup, texts[..i + 1])| <= |all|
            && UnitsOf(setup, model, all)[from..from + |parts|] == UnitsOf(setup, model, parts)
  {
    SegmentsOfText(setup, texts, i);
    var from, parts := |SegmentsOf(setup, texts[..i])|, SegmentsIn(setup, texts[i]);
    UnitsOfSlice(setup, model, SegmentsOf(setup, texts), from, from + |parts|);
  }

  ghost predicate RightAnswers(setup: Setup, model: string, texts: seq<string>, vectors: seq<Vector>) {
    |vectors| == |texts| && forall i :: 0 <= i < |texts| ==> Answer(setup, model, texts[i]) == Some(vectors[i])
  }

  lemma RightOneMore(setup: Setup, model: string, texts: seq<string>, i: nat, vectors: seq<Vector>, v: Vector)
    requires i < |texts| && RightAnswers(setup, model, texts[..i], vectors) && Answer(setup, model, texts[i]) == Some(v)
    ensures RightAnswers(setup, model, texts[..i + 1], vectors + [v])
  {
    forall j | 0 <= j < i ensures Answer(setup, model, texts[j]) == Some(vectors[j]) {
      assert texts[..i][j] == texts[j];
    }
  }

  lemma RightIsAnswerable(setup: Setup, model: string, texts: seq<string>, vectors: seq<Vector>)
    requires RightAnswers(setup, model, texts, vectors)
    ensures Answerable(setup, model, texts)
  {
  }

  /** Every text's segments have vectors of one dimension. */
  ghost predicate Answerable(setup: Setup, model: string, texts: seq<string>) {
    forall i :: 0 <= i < |texts| ==> Answer(setup, model, texts[i]).Some?
  }

  /** An upstream that answers truthfully, once for each input, in whatever order, may be read by order. */
  lemma OneTruthPerInputIsSound(setup: Setup, model: string, input: seq<string>, reply: Reply)
    requires reply.Data? && |reply.items| == |input| && Truthful((t: string) => setup.embed(model, t), input, reply.items)
    requires forall k :: 0 <= k < |input| ==> Mentions(reply.items, k)
    ensures Replies(setup, model, input, reply)
    ensures (forall t :: setup.embed(model, t) != []) ==> FullReply(input, reply)
  {
    var embed := (t: string) => setup.embed(model, t);
    OneEntryPerInputIsGapless(embed, input, reply.items);
    GaplessIsPositional(embed, input, reply.items);
    IndexOrder(reply.items);
    forall i | 0 <= i < |input| ensures InOrder(reply.items)[i].embedding == embed(input[InOrder(reply.items)[i].index]) {
      assert InOrder(reply.items)[i] in reply.items;
    }
  }

  class Embedder {
    const setup: Setup
    const upstream: (nat, string, seq<string>) -> Reply
    var memory: map<CacheKey, Vector>
    var files: map<CacheKey, Vector>
    var posts: seq<(string, seq<string>)>

    /** What the adapter relies on: digests do not collide and the upstream's replies may be read by order. */
    ghost predicate Sound() {
      && Injective(setup.hash) && setup.batchItems >= 1
      && (forall n, model, input :: Replies(setup, model, input, upstream(n, model, input)))
    }

    ghost predicate TrueCaches()
      reads this
    {
      && All(memory, (k, v) => Vouched(setup, k, v))
      && All(files, (k, v) => v == [] || Vouched(setup, k, v))
    }

    /** The upstream answers every request with one good vector per input. */
    ghost predicate Answers() {
      forall n, model, input :: FullReply(input, upstream(n, model, input))
    }

    ghost function Known(): set<CacheKey>
      reads this
    {
      memory.Keys + set k | k in files && files[k] != []
    }

    method GetEmbeddingCache(key: CacheKey) returns (r: Option<Vector>)
      requires TrueCaches()
      modifies this`memory
      ensures TrueCaches() && Known() == old(Known())
      ensures r.Some? <==> key in Known()
      ensures r.Some? ==> Vouched(setup, key, r.value)
    {
      if key in memory {
        return Some(memory[key]);
      }
      if key in files && files[key] != [] {
        memory := memory[key := files[key]];
        return Some(files[key]);
      }
      return None;
    }

    ghost predicate RightSlots(model: string, segments: seq<string>, vectors: seq<Option<Vector>>) {
      && |vectors| == |segments|
      && forall j :: 0 <= j < |vectors| && vectors[j].Some? ==> vectors[j].value == UnitOf(setup, model, segments[j])
    }

    method KeepVector(key: CacheKey, vector: Vector, persist: bool)
      requires TrueCaches() && Vouched(setup, key, vector)
      modifies this`memory, this`files
      ensures TrueCaches() && memory == old(memory)[key := vector] && old(Known()) <= Known() <= old(Known()) + {key}
      ensures files == if persist then old(files)[key := vector] else old(files)
    {
      memory := memory[key := vector];
      if persist {
        files := files[key := vector];
      }
    }

    method StoreVector(model: string, segments: seq<string>, p: nat, vector: Vector, vectors: array<Option<Vector>>, persist: bool)
      requires TrueCaches() && RightSlots(model, segments, vectors[..]) && p < |segments|
      requires vector == UnitOf(setup, model, segments[p])
      modifies this`memory, this`files, vectors
      ensures TrueCaches() && RightSlots(model, segments, vectors[..])
      ensures vectors[p].Some? && forall j :: 0 <= j < vectors.Length && j != p ==> vectors[j] == old(vectors[j])
      ensures memory == old(memory)[KeyOf(setup, model, segments[p]) := vector]
      ensures files == if persist then old(files)[KeyOf(setup, model, segments[p]) := vector] else old(files)
      ensures old(Known()) <= Known() <= old(Known()) + {KeyOf(setup, model, segments[p])}
    {
      vectors[p] := Some(vector);
      KeepVector(KeyOf(setup, model, segments[p]), vector, persist);
    }

    /** Sends one batch; what comes back goes into the caches and into the slots of the batch. */
    method Flush(model: string, segments: seq<string>, positions: seq<nat>, vectors: array<Option<Vector>>, persist: bool) returns (ok: bool)
      requires Sound() && TrueCaches() && Below(positions, |segments|) && Increasing(positions)
      requires RightSlots(model, segments, vectors[..])
      modifies this`memory, this`files, this`posts, vectors
      ensures TrueCaches() && RightSlots(model, segments, vectors[..])
      ensures posts == old(posts) + [(model, At(segments, positions))]
      ensures var reply := upstream(|old(posts)|, model, At(segments, positions));
              var keys := KeysOf(setup, model, At(segments, positions));
              && (memory, ok) == (if reply.Data? then Absorb(setup.sqrt, old(memory), keys, InOrder(reply.items)) else (old(memory), false))
              && files == if persist && reply.Data? then Absorb(setup.sqrt, old(files), keys, InOrder(reply.items)).0 else old(files)
      ensures forall j :: 0 <= j < |segments| && j !in positions ==> vectors[j] == old(vectors[j])
      ensures old(Known()) <= Known() <= old(Known()) + KeySet(setup, model, segments, positions)
      ensures Answers() ==> ok && forall i :: 0 <= i < |positions| ==> vectors[positions[i]].Some?
    {
      var input := At(segments, positions);
      var reply := upstream(|posts|, model, input);
      posts := posts + [(model, input)];
      assert Replies(setup, model, input, reply);
      if reply.NoData? {
        return false;
      }
      ok := KeepReply(model, segments, positions, reply, vectors, persist);
    }

    /** Pairs the entries of a reply, by index, with the positions of its batch, until the shorter runs out. */
    method KeepReply(model: string, segments: seq<string>, positions: seq<nat>, reply: Reply, vectors: array<Option<Vector>>, persist: bool)
      returns (ok: bool)
      requires TrueCaches() && RightSlots(model, segments, vectors[..]) && Below(positions, |segments|) && Increasing(positions)
      requires reply.Data? && Replies(setup, model, At(segments, positions), reply)
      modifies this`memory, this`files, vectors
      ensures TrueCaches() && RightSlots(model, segments, vectors[..])
      ensures (memory, ok) == Absorb(setup.sqrt, old(memory), KeysOf(setup, model, At(segments, positions)), InOrder(reply.items))
      ensures files == if persist then Absorb(setup.sqrt, old(files), KeysOf(setup, model, At(segments, positions)), InOrder(reply.items)).0 else old(files)
      ensures forall j :: 0 <= j < |segments| && j !in positions ==> vectors[j] == old(vectors[j])
      ensures old(Known()) <= Known() <= old(Known()) + KeySet(setup, model, segments, positions)
      ensures FullReply(At(segments, positions), reply) ==> ok && forall i :: 0 <= i < |positions| ==> vectors[positions[i]].Some?
    {
      var keys, ordered := KeysOf(setup, model, At(segments, positions)), InOrder(reply.items);
      assert keys[0..] == keys && ordered[0..] == ordered;
      for k := 0 to Answered(ordered, |positions|)
        invariant Absorb(setup.sqrt, memory, keys[k..], ordered[k..]) == Absorb(setup.sqrt, old(memory), keys, ordered)
        invariant if persist then Absorb(setup.sqrt, files, keys[k..], ordered[k..]) == Absorb(setup.sqrt, old(files), keys, ordered) else files == old(files)
        invariant TrueCaches() && RightSlots(model, segments, vectors[..])
        invariant forall j :: 0 <= j < |segments| && j !in positions ==> vectors[j] == old(vectors[j])
        invariant forall i :: 0 <= i < k ==> vectors[positions[i]].Some?
        invariant old(Known()) <= Known() <= old(Known()) + KeySet(setup, model, segments, positions)
      {
        AbsorbStep(setup.sqrt, memory, keys, ordered, k);
        AbsorbStep(setup.sqrt, files, keys, ordered, k);
        if ordered[k].embedding == [] {
          return false;
        }
        EntryIsRight(setup, model, segments, positions, reply, k);
        var normalized := Normalized(setup.sqrt, ordered[k].embedding);
        StoreVector(model, segments, positions[k], normalized, vectors, persist);
      }
      AbsorbStep(setup.sqrt, memory, keys, ordered, Answered(ordered, |positions|));
      AbsorbStep(setup.sqrt, files, keys, ordered, Answered(ordered, |positions|));
      return true;
    }

    ghost predicate Filled(slots: seq<Option<Vector>>, hits: set<nat>, sent: seq<nat>) {
      && (forall j <- hits :: j < |slots| ==> slots[j].Some?)
      && (forall i :: 0 <= i < |sent| && sent[i] < |slots| ==> slots[sent[i]].Some?)
    }

    /** What the loop over the segments keeps, next to its queue. */
    ghost predicate Filling(model: string, segments: seq<string>, n: nat, known: set<CacheKey>, posted: seq<(string, seq<string>)>,
                            batches: seq<seq<nat>>, batch: seq<nat>, tokens: nat, hits: set<nat>, slots: seq<Option<Vector>>)
      reads this
    {
      && TrueCaches() && RightSlots(model, segments, slots)
      && Queue(setup, model, segments, n, known, batches, batch, tokens, hits)
      && posts == posted + Requests(model, segments, batches)
      && known <= Known() <= known + KeySet(setup, model, segments, Joined(batches) + batch)
      && (Answers() ==> Filled(slots, hits, Joined(batches)))
    }

    /** Sends the waiting batch. */
    method SendBatch(model: string, segments: seq<string>, ghost known: set<CacheKey>, ghost posted: seq<(string, seq<string>)>,
                     ghost batches: seq<seq<nat>>, batch: seq<nat>, ghost hits: set<nat>, vectors: array<Option<Vector>>, persist: bool)
      returns (ok: bool)
      requires Sound() && TrueCaches() && RightSlots(model, segments, vectors[..])
      requires AllBelow(batches, |segments|) && Below(Joined(batches) + batch, |segments|) && Below(batch, |segments|) && Increasing(batch)
      requires posts == posted + Requests(model, segments, batches)
      requires known <= Known() <= known + KeySet(setup, model, segments, Joined(batches) + batch)
      modifies this`memory, this`files, this`posts, vectors
      ensures !persist ==> files == old(files)
      ensures TrueCaches() && RightSlots(model, segments, vectors[..])
      ensures AllBelow(batches + [batch], |segments|) && posts == posted + Requests(model, segments, batches + [batch])
      ensures Joined(batches + [batch]) == Joined(batches) + batch
      ensures known <= Known() <= known + KeySet(setup, model, segments, Joined(batches) + batch)
      ensures Answers() ==> ok && (old(Filled(vectors[..], hits, Joined(batches))) ==> Filled(vectors[..], hits, Joined(batches) + batch))
    {
      JoinedOneMore(batches, batch);
      RequestsOneMore(model, segments, batches, batch);
      ghost var before, slots := Known(), vectors[..];
      ok := Flush(model, segments, batch, vectors, persist);
      KnownAfter(setup, model, segments, known, before, Known(), Joined(batches), batch);
      FilledAfter(slots, vectors[..], hits, Joined(batches), batch);
    }

    lemma FilledAfter(before: seq<Option<Vector>>, after: seq<Option<Vector>>, hits: set<nat>, sent: seq<nat>, batch: seq<nat>)
      requires |before| == |after| && forall j :: 0 <= j < |before| && j !in batch ==> after[j] == before[j]
      requires Below(batch, |after|)
      ensures Filled(before, hits, sent) && (forall i :: 0 <= i < |batch| ==> after[batch[i]].Some?) ==> Filled(after, hits, sent + batch)
    {
    }

    method TakeCached(model: string, segments: seq<string>, n: nat, ghost known: set<CacheKey>, ghost posted: seq<(string, seq<string>)>,
                      ghost batches: seq<seq<nat>>, ghost batch: seq<nat>, ghost tokens: nat, ghost hits: set<nat>, vectors: array<Option<Vector>>)
      returns (hit: bool)
      requires Sound() && n < |segments| && Filling(model, segments, n, known, posted, batches, batch, tokens, hits, vectors[..])
      modifies this`memory, vectors
      ensures hit ==> Filling(model, segments, n + 1, known, posted, batches, batch, tokens, hits + {n}, vectors[..])
      ensures !hit ==> Filling(model, segments, n, known, posted, batches, batch, tokens, hits, vectors[..])
      ensures !hit ==> KeyOf(setup, model, segments[n]) !in Known()
    {
      var cached := GetEmbeddingCache(KeyOf(setup, model, segments[n]));
      hit := cached.Some?;
      if hit {
        VouchedIsUnit(setup, model, segments[n], cached.value);
        HitFills(model, segments, n, known, posted, batches, batch, tokens, hits, vectors[..], cached);
        vectors[n] := cached;
        assert vectors[..] == old(vectors[..])[n := cached];
      }
    }

    lemma HitIsRight(model: string, segments: seq<string>, n: nat, slots: seq<Option<Vector>>, cached: Option<Vector>)
      requires n < |segments| && RightSlots(model, segments, slots) && cached == Some(UnitOf(setup, model, segments[n]))
      ensures RightSlots(model, segments, slots[n := cached])
    {
    }

    lemma HitIsFilled(slots: seq<Option<Vector>>, n: nat, cached: Option<Vector>, hits: set<nat>, sent: seq<nat>)
      requires n < |slots| && cached.Some? && Filled(slots, hits, sent)
      ensures Filled(slots[n := cached], hits + {n}, sent)
    {
    }

    lemma HitFills(model: string, segments: seq<string>, n: nat, known: set<CacheKey>, posted: seq<(string, seq<string>)>,
                   batches: seq<seq<nat>>, batch: seq<nat>, tokens: nat, hits: set<nat>, slots: seq<Option<Vector>>, cached: Option<Vector>)
      requires Sound() && n < |segments| && Filling(model, segments, n, known, posted, batches, batch, tokens, hits, slots)
      requires cached == Some(UnitOf(setup, model, segments[n])) && KeyOf(setup, model, segments[n]) in Known()
      ensures Filling(model, segments, n + 1, known, posted, batches, batch, tokens, hits + {n}, slots[n := cached])
    {
      QueueHit(setup, model, segments, n, known, batches, batch, tokens, hits);
      HitIsRight(model, segments, n, slots, cached);
      if Answers() {
        HitIsFilled(slots, n, cached, hits, Joined(batches));
      }
    }

    lemma Appended(model: string, segments: seq<string>, n: nat, known: set<CacheKey>, posted: seq<(string, seq<string>)>,
                   batches: seq<seq<nat>>, batch: seq<nat>, tokens: nat, hits: set<nat>, slots: seq<Option<Vector>>)
      requires Sound() && n < |segments| && Filling(model, segments, n, known, posted, batches, batch, tokens, hits, slots)
      requires KeyOf(setup, model, segments[n]) !in known && (batch == [] || !MustSend(setup, segments[n], batch, tokens))
      ensures Filling(model, segments, n + 1, known, posted, batches, batch + [n], tokens + Estimated(segments[n]), hits, slots)
    {
      QueueMore(setup, model, segments, n, known, batches, batch, tokens, hits);
      KeySetGrows(setup, model, segments, known, Known(), Joined(batches) + batch, Joined(batches) + (batch + [n]));
    }

    lemma Restarted(model: string, segments: seq<string>, n: nat, known: set<CacheKey>, posted: seq<(string, seq<string>)>,
                    batches: seq<seq<nat>>, batch: seq<nat>, tokens: nat, hits: set<nat>, slots: seq<Option<Vector>>)
      requires Sound() && n < |segments| && Queue(setup, model, segments, n, known, batches, batch, tokens, hits)
      requires KeyOf(setup, model, segments[n]) !in known && batch != [] && MustSend(setup, segments[n], batch, tokens)
      requires TrueCaches() && RightSlots(model, segments, slots)
      requires LegalBatches(setup, segments, batches + [batch]) && posts == posted + Requests(model, segments, batches + [batch])
      requires known <= Known() <= known + KeySet(setup, model, segments, Joined(batches + [batch]))
      requires Answers() ==> Filled(slots, hits, Joined(batches + [batch]))
      ensures Filling(model, segments, n + 1, known, posted, batches + [batch], [n], Estimated(segments[n]), hits, slots)
    {
      QueueFlushed(setup, model, segments, n, known, batches, batch, tokens, hits);
      KeySetGrows(setup, model, segments, known, Known(), Joined(batches + [batch]), Joined(batches + [batch]) + [n]);
    }

    /** Puts a segment into the waiting batch, sending that batch first when it must not grow. */
    method Enqueue(model: string, segments: seq<string>, n: nat, ghost known: set<CacheKey>, ghost posted: seq<(string, seq<string>)>,
                   ghost batches: seq<seq<nat>>, batch: seq<nat>, tokens: nat, ghost hits: set<nat>,
                   vectors: array<Option<Vector>>, persist: bool)
      returns (ok: bool, ghost batches': seq<seq<nat>>, batch': seq<nat>, tokens': nat)
      requires Sound() && n < |segments| && Filling(model, segments, n, known, posted, batches, batch, tokens, hits, vectors[..])
      requires KeyOf(setup, model, segments[n]) !in known
      modifies this`memory, this`files, this`posts, vectors
      ensures !persist ==> files == old(files)
      ensures ok ==> Filling(model, segments, n + 1, known, posted, batches', batch', tokens', hits, vectors[..])
      ensures !ok ==> Stopped(model, segments, posted, batches', vectors[..])
    {
      if batch != [] && MustSend(setup, segments[n], batch, tokens) {
        BatchIncreases(Joined(batches), batch);
        ok := SendBatch(model, segments, known, posted, batches, batch, hits, vectors, persist);
        Restarted(model, segments, n, known, posted, batches, batch, tokens, hits, vectors[..]);
        return ok, batches + [batch], [n], Estimated(segments[n]);
      } else {
        Appended(model, segments, n, known, posted, batches, batch, tokens, hits, vectors[..]);
        return true, batches, batch + [n], tokens + Estimated(segments[n]);
      }
    }

    /** Sends what still waits when every segment has been looked at. */
    method Finish(model: string, segments: seq<string>, ghost known: set<CacheKey>, ghost posted: seq<(string, seq<string>)>,
                  ghost batches: seq<seq<nat>>, batch: seq<nat>, ghost tokens: nat, ghost hits: set<nat>,
                  vectors: array<Option<Vector>>, persist: bool)
      returns (ok: bool)
      requires Sound() && Filling(model, segments, |segments|, known, posted, batches, batch, tokens, hits, vectors[..])
      modifies this`memory, this`files, this`posts, vectors
      ensures !persist ==> files == old(files)
      ensures TrueCaches() && RightSlots(model, segments, vectors[..])
      ensures posts == posted + Requests(model, segments, Pending(batches, batch))
      ensures Covers(Joined(Pending(batches, batch)), |segments|, hits)
      ensures Answers() ==> ok && Filled(vectors[..], hits, Joined(Pending(batches, batch)))
    {
      ok := true;
      if batch != [] {
        BatchIncreases(Joined(batches), batch);
        ok := SendBatch(model, segments, known, posted, batches, batch, hits, vectors, persist);
      } else {
        assert Joined(batches) + batch == Joined(batches);
      }
    }

    lemma Started(model: string, segments: seq<string>, slots: seq<Option<Vector>>)
      requires TrueCaches() && RightSlots(model, segments, slots)
      ensures Filling(model, segments, 0, Known(), posts, [], [], 0, {}, slots)
    {
      assert posts == posts + Requests(model, segments, []);
    }

    lemma AllFilled(slots: seq<Option<Vector>>, hits: set<nat>, sent: seq<nat>)
      requires Covers(sent, |slots|, hits) && Filled(slots, hits, sent)
      ensures forall j :: 0 <= j < |slots| ==> slots[j].Some?
    {
    }

    /** Looks one segment up and, if it is not cached, puts it into the waiting batch. */
    method LookAtSegment(model: string, segments: seq<string>, n: nat, ghost known: set<CacheKey>, ghost posted: seq<(string, seq<string>)>,
                         ghost batches: seq<seq<nat>>, batch: seq<nat>, tokens: nat, ghost hits: set<nat>,
                         vectors: array<Option<Vector>>, persist: bool)
      returns (ok: bool, ghost batches': seq<seq<nat>>, batch': seq<nat>, tokens': nat, ghost hits': set<nat>)
      requires Sound() && n < |segments| && Filling(model, segments, n, known, posted, batches, batch, tokens, hits, vectors[..])
      modifies this`memory, this`files, this`posts, vectors
      ensures !persist ==> files == old(files)
      ensures ok ==> Filling(model, segments, n + 1, known, posted, batches', batch', tokens', hits', vectors[..])
      ensures !ok ==> Stopped(model, segments, posted, batches', vectors[..])
    {
      var hit := TakeCached(model, segments, n, known, posted, batches, batch, tokens, hits, vectors);
      if hit {
        return true, batches, batch, tokens, hits + {n};
      }
      hits' := hits;
      ok, batches', batch', tokens' := Enqueue(model, segments, n, known, posted, batches, batch, tokens, hits, vectors, persist);
    }

    /** What is left when the upstream failed. */
    ghost predicate Stopped(model: string, segments: seq<string>, posted: seq<(string, seq<string>)>, batches: seq<seq<nat>>,
                            slots: seq<Option<Vector>>)
      reads this
    {
      && !Answers() && TrueCaches() && RightSlots(model, segments, slots)
      && LegalBatches(setup, segments, batches) && posts == posted + Requests(model, segments, batches)
    }

    /** Looks every segment up; what is not cached goes into batches, the last of which may still wait. */
    method LookAtSegments(model: string, segments: seq<string>, vectors: array<Option<Vector>>, persist: bool)
      returns (ok: bool, ghost batches: seq<seq<nat>>, batch: seq<nat>, tokens: nat, ghost hits: set<nat>)
      requires Sound() && TrueCaches() && RightSlots(model, segments, vectors[..])
      modifies this`memory, this`files, this`posts, vectors
      ensures !persist ==> files == old(files)
      ensures ok ==> Filling(model, segments, |segments|, old(Known()), old(posts), batches, batch, tokens, hits, vectors[..])
      ensures !ok ==> Stopped(model, segments, old(posts), batches, vectors[..])
    {
      ghost var known, posted := Known(), posts;
      ok, batch, tokens, batches, hits := true, [], 0, [], {};
      Started(model, segments, vectors[..]);
      for i := 0 to |segments|
        invariant ok && Filling(model, segments, i, known, posted, batches, batch, tokens, hits, vectors[..])
        invariant !persist ==> files == old(files)
      {
        ok, batches, batch, tokens, hits := LookAtSegment(model, segments, i, known, posted, batches, batch, tokens, hits, vectors, persist);
        if !ok {
          return;
        }
      }
    }

    /** Fills the slot of every segment, from the cache or through batches of those that are not in it. */
    method FillSlots(model: string, segments: seq<string>, vectors: array<Option<Vector>>, persist: bool)
      returns (ok: bool, ghost batches: seq<seq<nat>>, ghost hits: set<nat>)
      requires Sound() && TrueCaches() && RightSlots(model, segments, vectors[..])
      modifies this`memory, this`files, this`posts, vectors
      ensures !persist ==> files == old(files)
      ensures TrueCaches() && RightSlots(model, segments, vectors[..])
      ensures LegalBatches(setup, segments, batches) && posts == old(posts) + Requests(model, segments, batches)
      ensures ok ==> Covers(Joined(batches), |segments|, hits)
      ensures ok ==> Explained(setup, model, segments, old(Known()), Joined(batches), hits)
      ensures Answers() ==> ok && Filled(vectors[..], hits, Joined(batches))
    {
      ghost var known, posted := Known(), posts;
      var batch, tokens;
      ok, batches, batch, tokens, hits := LookAtSegments(model, segments, vectors, persist);
      if ok {
        JoinedPending(batches, batch);
        ok := Finish(model, segments, known, posted, batches, batch, tokens, hits, vectors, persist);
        batches := Pending(batches, batch);
      }
    }

    /** Cuts every text and notes how many segments each one has. */
    method CutTexts(texts: seq<string>) returns (segments: seq<string>, counts: seq<nat>)
      ensures segments == SegmentsOf(setup, texts)
      ensures |counts| == |texts| && forall i :: 0 <= i < |texts| ==> counts[i] == |SegmentsIn(setup, texts[i])|
    {
      segments, counts := [], [];
      for i := 0 to |texts|
        invariant segments == SegmentsOf(setup, texts[..i])
        invariant |counts| == i && forall j :: 0 <= j < i ==> counts[j] == |SegmentsIn(setup, texts[j])|
      {
        var parts := SplitTextForEmbedding(texts[i], setup.segmentTokens, setup.isSpace);
        assert texts[..i + 1][..i] == texts[..i];
        segments, counts := segments + parts, counts + [|parts|];
      }
      assert texts[..|texts|] == texts;
    }

    method MergeOne(model: string, texts: seq<string>, i: nat, cursor: nat, count: nat, units: seq<Vector>) returns (r: Option<Vector>)
      requires i < |texts| && count == |SegmentsIn(setup, texts[i])| && cursor == |SegmentsOf(setup, texts[..i])|
      requires units == UnitsOf(setup, model, SegmentsOf(setup, texts))
      ensures r == Answer(setup, model, texts[i])
      ensures cursor + count == |SegmentsOf(setup, texts[..i + 1])|
    {
      UnitsOfText(setup, model, texts, i);
      ghost var own := UnitsOf(setup, model, SegmentsIn(setup, texts[i]));
      var mine := units[cursor..cursor + count];
      assert mine == own;
      r := MergeVectors(setup.sqrt, mine);
    }

    /** Takes the vectors of each text's segments off the list and merges them. */
    method MergeTexts(model: string, texts: seq<string>, counts: seq<nat>, units: seq<Vector>) returns (r: Option<seq<Vector>>)
      requires |counts| == |texts| && forall i :: 0 <= i < |texts| ==> counts[i] == |SegmentsIn(setup, texts[i])|
      requires units == UnitsOf(setup, model, SegmentsOf(setup, texts))
      ensures if r.Some? then RightAnswers(setup, model, texts, r.value) else !Answerable(setup, model, texts)
    {
      var vectors: seq<Vector> := [];
      var cursor := 0;
      for i := 0 to |texts|
        invariant cursor == |SegmentsOf(setup, texts[..i])|
        invariant RightAnswers(setup, model, texts[..i], vectors)
      {
        var merged := MergeOne(model, texts, i, cursor, counts[i], units);
        if merged.None? {
          return None;
        }
        RightOneMore(setup, model, texts, i, vectors, merged.value);
        vectors, cursor := vectors + [merged.value], cursor + counts[i];
      }
      assert texts[..|texts|] == texts;
      return Some(vectors);
    }

    /** The filled slots; None when one of them is empty. */
    method TakeSlots(model: string, segments: seq<string>, vectors: array<Option<Vector>>) returns (r: Option<seq<Vector>>)
      requires RightSlots(model, segments, vectors[..])
      ensures r.Some? <==> forall j :: 0 <= j < |segments| ==> vectors[j].Some?
      ensures r.Some? ==> r.value == UnitsOf(setup, model, segments)
    {
      var units: seq<Vector> := [];
      for i := 0 to |segments|
        invariant |units| == i && forall j :: 0 <= j < i ==> vectors[j] == Some(units[j])
      {
        if vectors[i].None? {
          return None;
        }
        units := units + [vectors[i].value];
      }
      return Some(units);
    }

    /** Either raises or answers every text with the merge of the vectors of its segments. */
    method Embed(texts: seq<string>, model: string, persist: bool)
      returns (r: Option<seq<Vector>>, ghost batches: seq<seq<nat>>, ghost hits: set<nat>)
      requires Sound() && TrueCaches()
      modifies this`memory, this`files, this`posts
      ensures !persist ==> files == old(files)
      ensures TrueCaches()
      ensures r.Some? ==> RightAnswers(setup, model, texts, r.value)
      ensures Answers() ==> (r.Some? <==> Answerable(setup, model, texts))
      ensures var segments := SegmentsOf(setup, texts);
              && LegalBatches(setup, segments, batches) && posts == old(posts) + Requests(model, segments, batches)
              && (r.Some? ==> Covers(Joined(batches), |segments|, hits) && Explained(setup, model, segments, old(Known()), Joined(batches), hits))
    {
      var segments, counts := CutTexts(texts);
      var units;
      units, batches, hits := EmbedSegments(segments, model, persist);
      if units.None? {
        return None, batches, hits;
      }
      r := MergeTexts(model, texts, counts, units.value);
      if r.Some? {
        RightIsAnswerable(setup, model, texts, r.value);
      }
    }

    method EmbedSegments(segments: seq<string>, model: string, persist: bool)
      returns (r: Option<seq<Vector>>, ghost batches: seq<seq<nat>>, ghost hits: set<nat>)
      requires Sound() && TrueCaches()
      modifies this`memory, this`files, this`posts
      ensures !persist ==> files == old(files)
      ensures TrueCaches()
      ensures r.Some? ==> r.value == UnitsOf(setup, model, segments)
      ensures Answers() ==> r.Some?
      ensures LegalBatches(setup, segments, batches) && posts == old(posts) + Requests(model, segments, batches)
      ensures r.Some? ==> Covers(Joined(batches), |segments|, hits) && Explained(setup, model, segments, old(Known()), Joined(batches), hits)
    {
      var vectors := new Option<Vector>[|segments|](_ => None);
      var ok;
      ok, batches, hits := FillSlots(model, segments, vectors, persist);
      if !ok {
        return None, batches, hits;
      }
      if Filled(vectors[..], hits, Joined(batches)) {
        AllFilled(vectors[..], hits, Joined(batches));
      }
      r := TakeSlots(model, segments, vectors);
    }
  }

  lemma KeySetGrows(setup: Setup, model: string, segments: seq<string>, known: set<CacheKey>, known': set<CacheKey>,
                    positions: seq<nat>, positions': seq<nat>)
    requires Below(positions, |segments|) && Below(positions', |segments|) && forall p <- positions :: p in positions'
    requires known' <= known + KeySet(setup, model, segments, positions)
    ensures known' <= known + KeySet(setup, model, segments, positions')
  {
  }

  lemma RequestsOneMore(model: string, segments: seq<string>, batches: seq<seq<nat>>, batch: seq<nat>)
    requires Below(batch, |segments|) && AllBelow(batches, |segments|)
    ensures AllBelow(batches + [batch], |segments|)
    ensures Requests(model, segments, batches + [batch]) == Requests(model, segments, batches) + [(model, At(segments, batch))]
  {
  }

  lemma KnownAfter(setup: Setup, model: string, segments: seq<string>, known: set<CacheKey>, before: set<CacheKey>, after: set<CacheKey>,
                   sent: seq<nat>, batch: seq<nat>)
    requires Below(sent + batch, |segments|) && Below(batch, |segments|)
    requires known <= before <= known + KeySet(setup, model, segments, sent + batch)
    requires before <= after <= before + KeySet(setup, model, segments, batch)
    ensures known <= after <= known + KeySet(setup, model, segments, sent + batch)
  {
  }

  lemma BatchIncreases(front: seq<nat>, batch: seq<nat>)
    requires Increasing(front + batch)
    ensures Increasing(batch)
  {
    forall i, j | 0 <= i < j < |batch| ensures batch[i] < batch[j] {
      assert (front + batch)[|front| + i] == batch[i] && (front + batch)[|front| + j] == batch[j];
    }
  }
}
