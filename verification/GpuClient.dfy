/**
 What the client of the retrieval service decides on its own: how the chunks of an upload are
 packed into requests, and which chunks a delta over an earlier index has to send.
 */
module GpuClient {
  import opened Prelude
  import opened IndexStore
  import opened Upserts

  const MAX_INDEX_BATCH_BYTES := 8 * 1024 * 1024

  /** A chunk ready to be sent; `size` is the length of its encoded document. */
  datatype Chunk = Chunk(upload: Upload, size: nat)

  function Bytes(batch: seq<Chunk>): nat {
    if batch == [] then 0 else Bytes(batch[..|batch| - 1]) + batch[|batch| - 1].size
  }

  /** The batch is full for this chunk. */
  predicate Closes(batch: seq<Chunk>, chunk: Chunk, batchSize: nat) {
    |batch| >= batchSize || Bytes(batch) + chunk.size > MAX_INDEX_BATCH_BYTES
  }

  ghost predicate Fits(batch: seq<Chunk>, batchSize: nat) {
    |batch| <= batchSize && Bytes(batch) <= MAX_INDEX_BATCH_BYTES
  }

  /** The batches hold the chunks in order, each within both limits, and none had room for the next batch's first chunk. */
  ghost predicate Packed(batches: seq<seq<Chunk>>, chunks: seq<Chunk>, batchSize: nat) {
    && Joined(batches) == chunks
    && (forall i :: 0 <= i < |batches| ==> Fits(batches[i], batchSize))
    && (forall i :: 0 <= i < |batches| - 1 ==> batches[i] != [])
    && (forall i :: 0 < i < |batches| && batches[i] != [] ==> NoRoom(batches[i - 1], batches[i][0], batchSize))
  }

  /** One more chunk would take the batch over one of the limits. */
  ghost predicate NoRoom(batch: seq<Chunk>, chunk: Chunk, batchSize: nat) {
    !Fits(batch + [chunk], batchSize)
  }

  lemma ClosesIffNoRoom(batch: seq<Chunk>, chunk: Chunk, batchSize: nat)
    ensures Closes(batch, chunk, batchSize) <==> NoRoom(batch, chunk, batchSize)
  {
    BytesOneMore(batch, chunk);
  }

  /** The closed batches and the open one after the given chunks. */
  function Pack(chunks: seq<Chunk>, batchSize: nat): (seq<seq<Chunk>>, seq<Chunk>) {
    if chunks == [] then ([], [])
    else
      var ((closed, open), last) := (Pack(chunks[..|chunks| - 1], batchSize), chunks[|chunks| - 1]);
      if open != [] && Closes(open, last, batchSize) then (closed + [open], [last]) else (closed, open + [last])
  }

  function Batches(chunks: seq<Chunk>, batchSize: nat, forced: bool): seq<seq<Chunk>> {
    var (closed, open) := Pack(chunks, batchSize);
    if open != [] || forced then closed + [open] else closed
  }

  /**
   Packs chunks greedily; a chunk too large for any request fails the upload before anything is
   sent.  `forced` says that a request has to be sent even without documents.
   */
  method PackBatches(chunks: seq<Chunk>, batchSize: nat, forced: bool) returns (r: Option<seq<seq<Chunk>>>)
    requires batchSize >= 1
    ensures r.Some? <==> forall c <- chunks :: c.size <= 8_388_608
    ensures r.Some? ==> r.value == Batches(chunks, batchSize, forced)
  {
    var batches, batch, batchBytes := [], [], 0;
    for i := 0 to |chunks|
      invariant (batches, batch) == Pack(chunks[..i], batchSize)
      invariant batchBytes == Bytes(batch)
      invariant forall c <- chunks[..i] :: c.size <= MAX_INDEX_BATCH_BYTES
    {
      var chunk := chunks[i];
      assert chunks[..i + 1][..i] == chunks[..i];
      assert chunk in chunks;
      if chunk.size > MAX_INDEX_BATCH_BYTES {
        return None;
      }
      if batch != [] && (|batch| >= batchSize || batchBytes + chunk.size > MAX_INDEX_BATCH_BYTES) {
        batches, batch, batchBytes := batches + [batch], [], 0;
      }
      assert (batch + [chunk])[..|batch|] == batch;
      batch, batchBytes := batch + [chunk], batchBytes + chunk.size;
    }
    assert chunks[..|chunks|] == chunks;
    return Some(if batch != [] || forced then batches + [batch] else batches);
  }

  lemma BytesOneMore(batch: seq<Chunk>, chunk: Chunk)
    ensures Bytes(batch + [chunk]) == Bytes(batch) + chunk.size
  {
    assert (batch + [chunk])[..|batch|] == batch;
  }

  lemma CloseBatch(closed: seq<seq<Chunk>>, open: seq<Chunk>, chunks: seq<Chunk>, last: Chunk, batchSize: nat)
    requires Packed(closed + [open], chunks, batchSize) && open != [] && Closes(open, last, batchSize)
    requires batchSize >= 1 && last.size <= MAX_INDEX_BATCH_BYTES
    ensures Packed(closed + [open] + [[last]], chunks + [last], batchSize)
  {
    JoinedOneMore(closed + [open], [last]);
    ClosesIffNoRoom(open, last, batchSize);
    BytesOneMore([], last);
    assert [] + [last] == [last];
  }

  lemma ExtendBatch(closed: seq<seq<Chunk>>, open: seq<Chunk>, chunks: seq<Chunk>, last: Chunk, batchSize: nat)
    requires Packed(closed + [open], chunks, batchSize) && (if open == [] then closed == [] else !Closes(open, last, batchSize))
    requires batchSize >= 1 && last.size <= MAX_INDEX_BATCH_BYTES
    ensures Packed(closed + [open + [last]], chunks + [last], batchSize)
  {
    JoinedOneMore(closed, open);
    JoinedOneMore(closed, open + [last]);
    BytesOneMore(open, last);
    ClosesIffNoRoom(open, last, batchSize);
    var before, after := closed + [open], closed + [open + [last]];
    forall i | 0 <= i < |closed| ensures after[i] == before[i] && Fits(after[i], batchSize) && after[i] != [] {
      assert Fits(before[i], batchSize);
    }
    forall i | 0 < i < |after| ensures after[i] != [] ==> NoRoom(after[i - 1], after[i][0], batchSize) {
      assert after[i - 1] == before[i - 1];
      assert before[i] != [] ==> NoRoom(before[i - 1], before[i][0], batchSize);
    }
  }

  lemma {:induction false} PackIsGreedy(chunks: seq<Chunk>, batchSize: nat)
    requires batchSize >= 1 && forall c <- chunks :: c.size <= MAX_INDEX_BATCH_BYTES
    ensures var (closed, open) := Pack(chunks, batchSize);
            Packed(closed + [open], chunks, batchSize) && (open == [] ==> chunks == [])
  {
    if chunks == [] {
      JoinedOneMore<Chunk>([], []);
    } else {
      var n := |chunks| - 1;
      PackIsGreedy(chunks[..n], batchSize);
      var ((closed, open), last) := (Pack(chunks[..n], batchSize), chunks[n]);
      assert chunks == chunks[..n] + [last];
      if open != [] && Closes(open, last, batchSize) {
        CloseBatch(closed, open, chunks[..n], last, batchSize);
      } else {
        ExtendBatch(closed, open, chunks[..n], last, batchSize);
      }
    }
  }

  /** The batches of an upload are its chunks packed greedily; a forced upload has at least one. */
  lemma UploadIsPacked(chunks: seq<Chunk>, batchSize: nat, forced: bool)
    requires batchSize >= 1 && forall c <- chunks :: c.size <= MAX_INDEX_BATCH_BYTES
    ensures Packed(Batches(chunks, batchSize, forced), chunks, batchSize)
    ensures chunks != [] || forced ==> Batches(chunks, batchSize, forced) != []
  {
    PackIsGreedy(chunks, batchSize);
  }

  // ----- requests -----

  function Uploads(batch: seq<Chunk>): seq<Upload> {
    seq(|batch|, i requires 0 <= i < |batch| => batch[i].upload)
  }

  /** Only the first request replaces (and names a base and removals), only the last finalizes. */
  function RequestFor(key: IndexKey, model: string, batches: seq<seq<Chunk>>, base: string, removed: set<string>, i: nat): Request
    requires i < |batches|
  {
    Request(key, model, Uploads(batches[i]), if i == 0 then removed else {}, i == 0, i == |batches| - 1, if i == 0 then base else "")
  }

  function UploadRequests(key: IndexKey, model: string, batchSize: nat, chunks: seq<Chunk>, base: string, removed: set<string>)
    : Option<seq<Request>>
  {
    if exists c <- chunks :: c.size > MAX_INDEX_BATCH_BYTES then None
    else
      var batches := Batches(chunks, batchSize, base != "" || removed != {});
      Some(seq(|batches|, i requires 0 <= i < |batches| => RequestFor(key, model, batches, base, removed, i)))
  }

  // ----- the delta over an earlier index -----

  /** What the last successful sync recorded: its fingerprint and a signature per chunk id. */
  datatype Manifest = Manifest(fingerprint: string, documents: map<string, string>)

  datatype Plan = Plan(base: string, changed: set<string>, removed: set<string>)

  function SyncPlan(previous: Option<Manifest>, signatures: map<string, string>, fingerprint: string): Option<Plan> {
    if previous.None? || previous.value.fingerprint == "" || previous.value.fingerprint == fingerprint then None
    else
      var documents := previous.value.documents;
      Some(Plan(
        previous.value.fingerprint,
        set id | id in signatures && !(id in documents && documents[id] == signatures[id]),
        set id | id in documents && id !in signatures))
  }

  /** The plan describes the step from the base's chunk ids to the current ones: nothing stale stays, nothing new is forgotten. */
  lemma SyncPlanDescribesTheStep(previous: Option<Manifest>, signatures: map<string, string>, fingerprint: string)
    ensures var plan := SyncPlan(previous, signatures, fingerprint);
            plan.Some? ==>
              && previous.value.documents.Keys - plan.value.removed <= signatures.Keys
              && signatures.Keys == previous.value.documents.Keys - plan.value.removed + plan.value.changed
  {
    var plan := SyncPlan(previous, signatures, fingerprint);
    if plan.Some? {
      forall id | id in signatures ensures id in previous.value.documents.Keys - plan.value.removed + plan.value.changed {
      }
    }
  }

  /** What the base's manifest becomes when the plan is carried out with the current signatures. */
  function CarriedOut(documents: map<string, string>, plan: Plan, signatures: map<string, string>): map<string, string> {
    documents - plan.removed + map id | id in plan.changed && id in signatures :: signatures[id]
  }

  /**
   Carried out over its base the plan gives the current signatures, chunk by chunk, and it does nothing for
   nothing: every chunk it sends is new or has another signature, every one it removes was there.  There is
   a plan exactly when another index than this one was synced before.
   */
  lemma SyncPlanGivesSignatures(previous: Option<Manifest>, signatures: map<string, string>, fingerprint: string)
    ensures var plan := SyncPlan(previous, signatures, fingerprint);
            && (plan.Some? <==> previous.Some? && previous.value.fingerprint !in {"", fingerprint})
            && (plan.Some? ==>
                  && plan.value.base == previous.value.fingerprint
                  && CarriedOut(previous.value.documents, plan.value, signatures) == signatures
                  && plan.value.changed <= signatures.Keys
                  && (forall id <- plan.value.changed :: id in previous.value.documents ==> previous.value.documents[id] != signatures[id])
                  && plan.value.removed <= previous.value.documents.Keys)
  {
    var plan := SyncPlan(previous, signatures, fingerprint);
    if plan.Some? {
      var documents := previous.value.documents;
      var after := CarriedOut(documents, plan.value, signatures);
      forall id ensures id in after <==> id in signatures {
      }
      forall id | id in after ensures after[id] == signatures[id] {
      }
    }
  }

  /** The chunks of a delta: a scan for the changed ids. */
  function SelectChanged(chunks: seq<Chunk>, changed: set<string>): seq<Chunk> {
    if chunks == [] then []
    else
      var front, last := SelectChanged(chunks[..|chunks| - 1], changed), chunks[|chunks| - 1];
      if last.upload.id in changed then front + [last] else front
  }
}
