/**
 A client that is not disturbed: the delta over an earlier index and the full upload leave the
 same index, and a delta can only fall short when the base it reuses does.
 */
module DeltaSync {
  import opened Prelude
  import opened IndexStore
  import opened Upserts
  import opened Protocol
  import opened Durability
  import opened GpuClient
  import opened SyncSystem

  /** The service after the given requests. */
  function Replay(serve: Serve, s: Service, requests: seq<Request>): Service {
    if requests == [] then s
    else serve(Replay(serve, s, requests[..|requests| - 1]), requests[|requests| - 1]).0
  }

  function ResponseTo(serve: Serve, s: Service, requests: seq<Request>, k: nat): Response
    requires k < |requests|
  {
    serve(Replay(serve, s, requests[..k]), requests[k]).1
  }

  /** The chunk ids sent by the given requests. */
  function SentIds(requests: seq<Request>): set<string> {
    if requests == [] then {} else SentIds(requests[..|requests| - 1]) + UploadIds(requests[|requests| - 1].documents)
  }

  /** The requests of one upload: only the first replaces, only the last finalizes. */
  ghost predicate Framed(requests: seq<Request>, key: IndexKey, base: string, removed: set<string>, last: int) {
    forall i :: 0 <= i < |requests| ==>
      && requests[i].key == key && requests[i].replace == (i == 0) && requests[i].finalize == (i == last)
      && requests[i].removed == (if i == 0 then removed else {}) && requests[i].base == (if i == 0 then base else "")
  }

  /** A reachable state in which the index holds exactly the given chunk ids. */
  ghost predicate Holds(w: World, s: Service, key: IndexKey, ids: set<string>) {
    Inv(w, s) && key in s.indexes && IdsOf(s.indexes[key].documents) == ids
  }

  /** After the given requests the index holds what it started from, less the removals, plus everything sent, and the last one was accepted. */
  ghost predicate Uploaded(w: World, serve: Serve, s: Service, requests: seq<Request>, key: IndexKey, removed: set<string>)
    requires requests != []
  {
    var n, s' := |requests| - 1, Replay(serve, s, requests);
    && Holds(w, s', key, StartIds(w, s, requests[0]) - removed + SentIds(requests))
    && (requests[n].finalize ==> s'.indexes[key].ready)
    && ResponseTo(serve, s, requests, n).Accepted?
    && (n == 0 ==> ResponseTo(serve, s, requests, n).baseReused == ReusesBase(w, s, requests[0]))
  }

  lemma FirstRequestUploads(w: World, serve: Serve, s: Service, req: Request)
    requires Reliable(w, serve) && Inv(w, s) && HonestRequest(w, req)
    ensures Uploaded(w, serve, s, [req], req.key, req.removed)
  {
    assert [req][..0] == [];
    assert Effect(w, s, req, serve(s, req).0, serve(s, req).1);
    assert SentIds([req]) == UploadIds(req.documents);
  }

  lemma NextRequestUploads(w: World, serve: Serve, s: Service, requests: seq<Request>, key: IndexKey, removed: set<string>)
    requires Reliable(w, serve) && |requests| > 1
    requires var n := |requests| - 1;
             && HonestRequest(w, requests[n]) && !requests[n].replace && requests[n].removed == {} && requests[n].key == key
             && Uploaded(w, serve, s, requests[..n], key, removed)
    ensures Uploaded(w, serve, s, requests, key, removed)
  {
    var n := |requests| - 1;
    var before := Replay(serve, s, requests[..n]);
    assert Effect(w, before, requests[n], serve(before, requests[n]).0, serve(before, requests[n]).1);
    var ids := StartIds(w, s, requests[0]) - removed + SentIds(requests[..n]);
    assert ids - {} + UploadIds(requests[n].documents) == StartIds(w, s, requests[0]) - removed + SentIds(requests);
  }

  lemma {:induction false} ReplayUploads(w: World, serve: Serve, s: Service, requests: seq<Request>, key: IndexKey, base: string, removed: set<string>,
                                         last: int)
    requires Reliable(w, serve) && Inv(w, s)
    requires HonestRequests(w, key, requests) && requests != [] && Framed(requests, key, base, removed, last)
    ensures Uploaded(w, serve, s, requests, key, removed)
  {
    var n := |requests| - 1;
    if n == 0 {
      assert requests == [requests[0]];
      FirstRequestUploads(w, serve, s, requests[0]);
    } else {
      ReplayUploads(w, serve, s, requests[..n], key, base, removed, last);
      NextRequestUploads(w, serve, s, requests, key, removed);
    }
  }

  /** After some requests of an upload the index holds what it started from, less the removals, plus everything sent. */
  lemma ReplayHolds(w: World, serve: Serve, s: Service, requests: seq<Request>, key: IndexKey, base: string, removed: set<string>, last: int)
    requires Reliable(w, serve) && Inv(w, s)
    requires HonestRequests(w, key, requests) && requests != [] && Framed(requests, key, base, removed, last)
    ensures var s' := Replay(serve, s, requests);
            && Holds(w, s', key, StartIds(w, s, requests[0]) - removed + SentIds(requests))
            && (last == |requests| - 1 ==> s'.indexes[key].ready)
    ensures var response := ResponseTo(serve, s, requests, |requests| - 1);
            response.Accepted? && (|requests| == 1 ==> response.baseReused == ReusesBase(w, s, requests[0]))
  {
    ReplayUploads(w, serve, s, requests, key, base, removed, last);
  }

  /** At the end of an upload the status file is current, unless it was the clone of a base whose own is not. */
  lemma ReplayIsCurrent(w: World, serve: Serve, s: Service, requests: seq<Request>, key: IndexKey, base: string, removed: set<string>)
    requires Reliable(w, serve) && Inv(w, s)
    requires HonestRequests(w, key, requests) && requests != [] && Framed(requests, key, base, removed, |requests| - 1)
    ensures var s' := Replay(serve, s, requests);
            && key in s'.indexes
            && (Current(s', key) <==>
                  (|requests| == 1 && Clones(w, s, requests[0]) ==> CloneSurvives(w, s, key, IndexKey(key.profile, base))))
  {
    var n := |requests| - 1;
    if n == 0 {
      assert Replay(serve, s, requests[..0]) == s;
      FinalIsCurrent(w, serve, s, requests[0]);
    } else {
      FramedPrefix(requests, key, base, removed, n, n);
      ReplayHolds(w, serve, s, requests[..n], key, base, removed, n);
      FinalIsCurrent(w, serve, Replay(serve, s, requests[..n]), requests[n]);
    }
  }

  lemma FinalIsCurrent(w: World, serve: Serve, s: Service, req: Request)
    requires Reliable(w, serve) && Inv(w, s) && HonestRequest(w, req) && req.finalize
    ensures var s' := serve(s, req).0;
            && req.key in s'.indexes
            && (Current(s', req.key) <==> (Clones(w, s, req) ==> CloneSurvives(w, s, req.key, IndexKey(req.key.profile, req.base))))
  {
    var s' := serve(s, req).0;
    assert Filed(w, s, req, s') && CopiesBase(w, s, req, s');
    if Clones(w, s, req) {
      ClonedIsCurrent(w, s, req, s');
    }
  }

  // ----- the client's side of an undisturbed upload -----

  /** The client alone with the service: every request goes through and every answer arrives. */
  function Alone(serve: Serve, s: Service, c: Client, steps: nat): (Service, Client) {
    Iterated(Undisturbed(serve), (s, c), steps)
  }

  function Undisturbed(serve: Serve): ((Service, Client)) -> (Service, Client) {
    (x: (Service, Client)) => ClientStep(serve, x.0, x.1, true)
  }

  function PhaseAfter(requests: seq<Request>, k: nat, delta: bool, reused: bool): Phase {
    if k == 0 then Sending(requests, 0, delta, false)
    else if k < |requests| then Sending(requests, k, delta, reused)
    else Sent(delta, reused)
  }

  lemma StepSends(serve: Serve, s: Service, c: Client, requests: seq<Request>, k: nat, delta: bool, reused: bool)
    requires k < |requests| && serve(s, requests[k]).1.Accepted? && (k == 0 ==> serve(s, requests[k]).1.baseReused == reused)
    ensures ClientStep(serve, s, c.(phase := PhaseAfter(requests, k, delta, reused)), true)
            == (serve(s, requests[k]).0, c.(phase := PhaseAfter(requests, k + 1, delta, reused)))
  {
  }

  lemma {:induction false} AloneReplays(serve: Serve, s: Service, c: Client, requests: seq<Request>, k: nat, delta: bool, reused: bool)
    requires c.phase == Sending(requests, 0, delta, false) && k <= |requests|
    requires forall i: nat :: i < |requests| ==> ResponseTo(serve, s, requests, i).Accepted?
    requires requests != [] ==> ResponseTo(serve, s, requests, 0).baseReused == reused
    ensures Alone(serve, s, c, k) == (Replay(serve, s, requests[..k]), c.(phase := PhaseAfter(requests, k, delta, reused)))
  {
    if k == 0 {
      assert requests[..0] == [];
    } else {
      AloneReplays(serve, s, c, requests, k - 1, delta, reused);
      assert requests[..k][..k - 1] == requests[..k - 1];
      assert ResponseTo(serve, s, requests, k - 1).Accepted?;
      StepSends(serve, Replay(serve, s, requests[..k - 1]), c, requests, k - 1, delta, reused);
    }
  }

  lemma FramedPrefix(requests: seq<Request>, key: IndexKey, base: string, removed: set<string>, last: int, k: nat)
    requires Framed(requests, key, base, removed, last) && k <= |requests|
    ensures Framed(requests[..k], key, base, removed, last)
  {
  }

  lemma EveryResponse(w: World, serve: Serve, s: Service, requests: seq<Request>, key: IndexKey, base: string, removed: set<string>, i: nat)
    requires Reliable(w, serve) && Inv(w, s) && HonestRequests(w, key, requests)
    requires Framed(requests, key, base, removed, |requests| - 1) && i < |requests|
    ensures ResponseTo(serve, s, requests, i).Accepted?
    ensures i == 0 ==> ResponseTo(serve, s, requests, i).baseReused == ReusesBase(w, s, requests[0])
  {
    var last := |requests| - 1;
    var some := requests[..i + 1];
    PrefixResponse(serve, s, requests, i);
    FramedPrefix(requests, key, base, removed, last, i + 1);
    assert HonestRequests(w, key, some) && some[0] == requests[0];
    ReplayHolds(w, serve, s, some, key, base, removed, last);
  }

  lemma PrefixResponse(serve: Serve, s: Service, requests: seq<Request>, i: nat)
    requires i < |requests|
    ensures ResponseTo(serve, s, requests[..i + 1], i) == ResponseTo(serve, s, requests, i)
  {
    assert requests[..i + 1][..i] == requests[..i];
  }

  /** An undisturbed upload ends with all its chunks in the index. */
  lemma UploadAlone(w: World, serve: Serve, s: Service, c: Client, requests: seq<Request>, delta: bool, base: string, removed: set<string>)
    requires Reliable(w, serve) && Inv(w, s) && HonestRequests(w, c.key, requests)
    requires c.phase == Sending(requests, 0, delta, false) && requests != []
    requires Framed(requests, c.key, base, removed, |requests| - 1)
    ensures Alone(serve, s, c, |requests|) == (Replay(serve, s, requests), c.(phase := Sent(delta, ReusesBase(w, s, requests[0]))))
    ensures Holds(w, Replay(serve, s, requests), c.key, StartIds(w, s, requests[0]) - removed + SentIds(requests))
    ensures Replay(serve, s, requests).indexes[c.key].ready
  {
    forall i: nat | i < |requests|
      ensures ResponseTo(serve, s, requests, i).Accepted?
      ensures i == 0 ==> ResponseTo(serve, s, requests, i).baseReused == ReusesBase(w, s, requests[0])
    {
      EveryResponse(w, serve, s, requests, c.key, base, removed, i);
    }
    AloneReplays(serve, s, c, requests, |requests|, delta, ReusesBase(w, s, requests[0]));
    assert requests[..|requests|] == requests;
    ReplayHolds(w, serve, s, requests, c.key, base, removed, |requests| - 1);
  }

  // ----- the requests of an upload -----

  lemma ChunkIdsOf(front: seq<Chunk>, batch: seq<Chunk>)
    ensures ChunkIds(front + batch) == ChunkIds(front) + UploadIds(Uploads(batch))
  {
    forall c | c in batch ensures c.upload.id in UploadIds(Uploads(batch)) {
      var j :| 0 <= j < |batch| && batch[j] == c;
      assert Uploads(batch)[j] in Uploads(batch);
    }
    forall u | u in Uploads(batch) ensures u.id in ChunkIds(batch) {
      var j :| 0 <= j < |batch| && Uploads(batch)[j] == u;
      assert batch[j] in batch;
    }
  }

  lemma {:induction false} BatchesAreSent(batches: seq<seq<Chunk>>, requests: seq<Request>)
    requires |requests| == |batches| && forall i :: 0 <= i < |batches| ==> requests[i].documents == Uploads(batches[i])
    ensures SentIds(requests) == ChunkIds(Joined(batches))
  {
    if batches != [] {
      var n := |batches| - 1;
      BatchesAreSent(batches[..n], requests[..n]);
      ChunkIdsOf(Joined(batches[..n]), batches[n]);
    }
  }

  predicate Small(chunks: seq<Chunk>) {
    forall c <- chunks :: c.size <= MAX_INDEX_BATCH_BYTES
  }

  /** The requests of an upload replace once, finalize once and send exactly the chunks. */
  lemma RequestsOfUpload(c: Client, chunks: seq<Chunk>, base: string, removed: set<string>)
    requires Small(chunks) && c.batchSize >= 1 && (chunks != [] || base != "")
    ensures var r := UploadRequests(c.key, c.model, c.batchSize, chunks, base, removed);
            && r.Some? && r.value != []
            && Framed(r.value, c.key, base, removed, |r.value| - 1) && SentIds(r.value) == ChunkIds(chunks)
  {
    var batches := Batches(chunks, c.batchSize, base != "" || removed != {});
    UploadIsPacked(chunks, c.batchSize, base != "" || removed != {});
    var requests := UploadRequests(c.key, c.model, c.batchSize, chunks, base, removed).value;
    forall i: nat | i < |requests| ensures requests[i] == RequestFor(c.key, c.model, batches, base, removed, i) {
    }
    BatchesAreSent(batches, requests);
  }

  lemma OneRequestSendsAll(c: Client, chunks: seq<Chunk>, base: string, removed: set<string>)
    requires Small(chunks) && c.batchSize >= 1 && (chunks != [] || base != "")
    ensures var requests := UploadRequests(c.key, c.model, c.batchSize, chunks, base, removed).value;
            |requests| == 1 ==> requests[0].documents == Uploads(chunks)
  {
    var batches := Batches(chunks, c.batchSize, base != "" || removed != {});
    UploadIsPacked(chunks, c.batchSize, base != "" || removed != {});
    OneBatchIsAll(batches, chunks);
    var requests := UploadRequests(c.key, c.model, c.batchSize, chunks, base, removed).value;
    assert |requests| == 1 ==> requests[0] == RequestFor(c.key, c.model, batches, base, removed, 0);
  }

  lemma OneBatchIsAll(batches: seq<seq<Chunk>>, chunks: seq<Chunk>)
    requires Joined(batches) == chunks
    ensures |batches| == 1 ==> batches[0] == chunks
  {
    if |batches| == 1 {
      JoinedOne(batches[0]);
      assert batches == [batches[0]];
    }
  }

  lemma NothingIsOneBatch(c: Client, base: string, removed: set<string>)
    requires base != ""
    ensures |UploadRequests(c.key, c.model, c.batchSize, [], base, removed).value| == 1
    ensures UploadRequests(c.key, c.model, c.batchSize, [], base, removed).value[0].documents == []
  {
    assert Batches([], c.batchSize, true) == [[]];
    assert UploadRequests(c.key, c.model, c.batchSize, [], base, removed).value[0] == RequestFor(c.key, c.model, [[]], base, removed, 0);
  }

  // ----- the outcome -----

  ghost predicate Reaches(serve: Serve, s: Service, c: Client, s': Service, c': Client) {
    exists steps: nat :: Alone(serve, s, c, steps) == (s', c')
  }

  lemma AloneTwice(serve: Serve, s: Service, c: Client, m: nat, n: nat)
    ensures var (s1, c1) := Alone(serve, s, c, m); Alone(serve, s1, c1, n) == Alone(serve, s, c, m + n)
  {
    IteratedTwice(Undisturbed(serve), (s, c), m, n);
  }

  lemma ReachesTwice(serve: Serve, s: Service, c: Client, s1: Service, c1: Client, s2: Service, c2: Client)
    requires Reaches(serve, s, c, s1, c1) && Reaches(serve, s1, c1, s2, c2)
    ensures Reaches(serve, s, c, s2, c2)
  {
    var m: nat :| Alone(serve, s, c, m) == (s1, c1);
    var n: nat :| Alone(serve, s1, c1, n) == (s2, c2);
    AloneTwice(serve, s, c, m, n);
  }

  lemma ReachesOne(serve: Serve, s: Service, c: Client)
    ensures Reaches(serve, s, c, ClientStep(serve, s, c, true).0, ClientStep(serve, s, c, true).1)
  {
    assert Alone(serve, s, c, 0) == (s, c);
    assert Alone(serve, s, c, 1) == ClientStep(serve, s, c, true);
  }

  /** Every chunk once, all small enough to send, and the index not there yet. */
  ghost predicate Ready(w: World, s: Service, c: Client) {
    && Inv(w, s) && HonestConfig(w, c) && |c.chunks| == |w.targetOf(c.key)|
    && c.chunks != [] && c.batchSize >= 1 && Small(c.chunks)
  }

  /** Sending chunks alone: the index then holds them over what the first request started from. */
  lemma SendAlone(w: World, serve: Serve, s: Service, c: Client, chunks: seq<Chunk>, base: string, removed: set<string>, delta: bool)
    returns (s': Service, reused: bool)
    requires Reliable(w, serve) && Ready(w, s, c) && Small(chunks) && HonestChunks(w, c.key, chunks) && (chunks != [] || base != "")
    requires base != "" ==> w.targetOf(IndexKey(c.key.profile, base)) - removed <= w.targetOf(c.key)
    ensures Reaches(serve, s, SendInBatches(c, chunks, base, removed, delta), s', c.(phase := Sent(delta, reused)))
    ensures reused <==> base != "" && BaseReady(w, s, c.key, base)
    ensures Holds(w, s', c.key, (if reused then BaseIds(w, s, c.key, base) else {}) - removed + ChunkIds(chunks)) && s'.indexes[c.key].ready
    ensures Current(s', c.key) <==> (reused && removed == {} && chunks == [] ==> CloneSurvives(w, s, c.key, IndexKey(c.key.profile, base)))
  {
    RequestsOfUpload(c, chunks, base, removed);
    OneRequestSendsAll(c, chunks, base, removed);
    UploadIsHonest(w, c, chunks, base, removed, delta);
    var requests := UploadRequests(c.key, c.model, c.batchSize, chunks, base, removed).value;
    var c1 := SendInBatches(c, chunks, base, removed, delta);
    UploadAlone(w, serve, s, c1, requests, delta, base, removed);
    s', reused := Replay(serve, s, requests), ReusesBase(w, s, requests[0]);
    ReplayIsCurrent(w, serve, s, requests, c.key, base, removed);
    assert chunks == [] ==> requests[0].documents == [] && |requests| == 1 by {
      if chunks == [] {
        NothingIsOneBatch(c, base, removed);
      }
    }
    assert c1.(phase := Sent(delta, reused)) == c.(phase := Sent(delta, reused));
  }

  ghost predicate BaseReady(w: World, s: Service, key: IndexKey, base: string) {
    var held := Held(w, s, IndexKey(key.profile, base)); held.Some? && held.value.ready
  }

  ghost function BaseIds(w: World, s: Service, key: IndexKey, base: string): set<string>
    requires BaseReady(w, s, key, base)
  {
    IdsOf(Held(w, s, IndexKey(key.profile, base)).value.documents)
  }

  /** The client's last question: it returns normally exactly when the index holds the whole target. */
  lemma ConfirmAlone(w: World, serve: Serve, s: Service, c: Client, ids: set<string>) returns (s': Service, c': Client)
    requires Sane(w) && HonestConfig(w, c) && |c.chunks| == |w.targetOf(c.key)| && c.phase == Confirming
    requires Holds(w, s, c.key, ids) && s.indexes[c.key].ready
    ensures Reaches(serve, s, c, s', c') && s' == s && c' == c.(phase := if ids == w.targetOf(c.key) then Returned else Failed)
    ensures ids == w.targetOf(c.key) ==> Complete(w, c.key, s'.indexes[c.key])
  {
    StatusChangesNothing(w, s, c.key, |c.chunks|);
    ReadyMeansComplete(w, s, c.key, |c.chunks|);
    ReachesOne(serve, s, c);
    s', c' := s, ClientStep(serve, s, c, true).1;
    assert TrueRecord(w, s.vectors, c.key, s.indexes[c.key]);
    CountIsCardinality(s.indexes[c.key].documents);
    if ids == w.targetOf(c.key) {
      FullCountIsComplete(w, s.vectors, c.key, s.indexes[c.key]);
    }
  }

  /** An upload that needs no second one is followed by the last question. */
  lemma ThenConfirming(serve: Serve, s: Service, start: Client, s1: Service, c: Client, delta: bool, reused: bool)
    requires Reaches(serve, s, start, s1, c.(phase := Sent(delta, reused))) && (delta ==> reused)
    ensures Reaches(serve, s, start, s1, c.(phase := Confirming))
  {
    var c1 := c.(phase := Sent(delta, reused));
    ReachesOne(serve, s1, c1);
    ReachesTwice(serve, s, start, s1, c1, s1, c.(phase := Confirming));
  }

  /** Sending in full leaves the whole target and nothing else. */
  lemma FullSent(w: World, serve: Serve, s: Service, c: Client) returns (s1: Service)
    requires Sane(w) && Reliable(w, serve) && Ready(w, s, c)
    ensures Reaches(serve, s, FullUpload(c), s1, c.(phase := Confirming))
    ensures Holds(w, s1, c.key, w.targetOf(c.key)) && s1.indexes[c.key].ready && Current(s1, c.key)
  {
    var reused;
    s1, reused := SendAlone(w, serve, s, c, c.chunks, "", {}, false);
    assert {} - {} + ChunkIds(c.chunks) == w.targetOf(c.key);
    ThenConfirming(serve, s, FullUpload(c), s1, c, false, reused);
  }

  /** Sending in full always succeeds when nothing interferes. */
  lemma FullAlone(w: World, serve: Serve, s: Service, c: Client) returns (s': Service, c': Client)
    requires Sane(w) && Reliable(w, serve) && Ready(w, s, c)
    ensures Reaches(serve, s, FullUpload(c), s', c') && c'.phase == Returned && c.key in s'.indexes && Complete(w, c.key, s'.indexes[c.key])
    ensures Inv(w, s') && Current(s', c.key)
  {
    var s1 := FullSent(w, serve, s, c);
    var c2 := c.(phase := Confirming);
    s', c' := ConfirmAlone(w, serve, s1, c2, w.targetOf(c.key));
    ReachesTwice(serve, s, FullUpload(c), s1, c2, s', c');
  }

  /** Whether the sync is a delta, and then what it can rely on. */
  ghost predicate BaseSuffices(w: World, s: Service, c: Client) {
    c.plan.Some? && c.plan.value.base != "" && BaseReady(w, s, c.key, c.plan.value.base) ==>
      w.targetOf(c.key) <= BaseIds(w, s, c.key, c.plan.value.base) - c.plan.value.removed + c.plan.value.changed
  }

  /** The delta is empty and the base reused, so the index is stored as its clone. */
  ghost predicate OnlyClones(w: World, s: Service, c: Client) {
    && c.plan.Some? && c.plan.value.base != "" && BaseReady(w, s, c.key, c.plan.value.base)
    && c.plan.value.removed == {} && SelectChanged(c.chunks, c.plan.value.changed) == []
  }

  /** What the sync leaves on disk will bring the index back. */
  ghost predicate WillSurvive(w: World, s: Service, c: Client) {
    OnlyClones(w, s, c) ==> CloneSurvives(w, s, c.key, IndexKey(c.key.profile, c.plan.value.base))
  }

  lemma DeltaAlone(w: World, serve: Serve, s: Service, c: Client) returns (s': Service, c': Client)
    requires Sane(w) && Reliable(w, serve) && Ready(w, s, c) && c.plan.Some? && c.plan.value.base != ""
    ensures Reaches(serve, s, StartUpload(c), s', c') && (c'.phase == Returned || c'.phase == Failed)
    ensures c'.phase == Returned <==> BaseSuffices(w, s, c)
    ensures c'.phase == Returned ==> c.key in s'.indexes && Complete(w, c.key, s'.indexes[c.key])
    ensures Inv(w, s') && (c'.phase == Returned ==> (Current(s', c.key) <==> WillSurvive(w, s, c)))
  {
    var p := c.plan.value;
    var selected := SelectChanged(c.chunks, p.changed);
    SelectedAreHonest(w, c.key, c.chunks, p.changed);
    SelectedAreSmall(c.chunks, p.changed);
    var s1, reused := SendAlone(w, serve, s, c, selected, p.base, p.removed, true);
    if reused {
      s', c' := ReusedAlone(w, serve, s, s1, c);
    } else {
      s', c' := FallBackAlone(w, serve, s, s1, c);
    }
  }

  /** The base was reused: only the confirmation is left. */
  lemma ReusedAlone(w: World, serve: Serve, s: Service, s1: Service, c: Client) returns (s': Service, c': Client)
    requires Sane(w) && Ready(w, s, c) && c.plan.Some? && c.plan.value.base != "" && BaseReady(w, s, c.key, c.plan.value.base)
    requires Reaches(serve, s, StartUpload(c), s1, c.(phase := Sent(true, true)))
    requires var p := c.plan.value;
             Holds(w, s1, c.key, BaseIds(w, s, c.key, p.base) - p.removed + ChunkIds(SelectChanged(c.chunks, p.changed)))
    requires s1.indexes[c.key].ready
    ensures Reaches(serve, s, StartUpload(c), s', c') && (c'.phase == Returned || c'.phase == Failed)
    ensures c'.phase == Returned <==> BaseSuffices(w, s, c)
    ensures s' == s1 && (c'.phase == Returned ==> Complete(w, c.key, s'.indexes[c.key]))
  {
    var c2 := c.(phase := Confirming);
    ThenConfirming(serve, s, StartUpload(c), s1, c, true, true);
    s', c' := AfterReuse(w, serve, s, s1, c);
    ReachesTwice(serve, s, StartUpload(c), s1, c2, s', c');
  }

  /** The base was not reused: everything is sent in full. */
  lemma FallBackAlone(w: World, serve: Serve, s: Service, s1: Service, c: Client) returns (s': Service, c': Client)
    requires Sane(w) && Reliable(w, serve) && Ready(w, s1, c)
    requires Reaches(serve, s, StartUpload(c), s1, c.(phase := Sent(true, false)))
    ensures Reaches(serve, s, StartUpload(c), s', c') && c'.phase == Returned
    ensures c.key in s'.indexes && Complete(w, c.key, s'.indexes[c.key]) && Inv(w, s') && Current(s', c.key)
  {
    var c1 := c.(phase := Sent(true, false));
    ReachesOne(serve, s1, c1);
    FullUploadForgetsPhase(c1, c);
    ReachesTwice(serve, s, StartUpload(c), s1, c1, s1, FullUpload(c));
    s', c' := FullAlone(w, serve, s1, c);
    ReachesTwice(serve, s, StartUpload(c), s1, FullUpload(c), s', c');
  }

  lemma AfterReuse(w: World, serve: Serve, s: Service, s1: Service, c: Client) returns (s': Service, c': Client)
    requires Sane(w) && Ready(w, s, c) && c.plan.Some? && c.plan.value.base != "" && BaseReady(w, s, c.key, c.plan.value.base)
    requires var p := c.plan.value;
             Holds(w, s1, c.key, BaseIds(w, s, c.key, p.base) - p.removed + ChunkIds(SelectChanged(c.chunks, p.changed)))
    requires s1.indexes[c.key].ready
    ensures Reaches(serve, s1, c.(phase := Confirming), s', c') && (c'.phase == Returned || c'.phase == Failed)
    ensures c'.phase == Returned <==> BaseSuffices(w, s, c)
    ensures s' == s1 && (c'.phase == Returned ==> Complete(w, c.key, s'.indexes[c.key]))
  {
    var p := c.plan.value;
    SelectedAreHonest(w, c.key, c.chunks, p.changed);
    BaseIdsAreWithinTarget(w, s, c.key, p);
    var ids := BaseIds(w, s, c.key, p.base) - p.removed + ChunkIds(SelectChanged(c.chunks, p.changed));
    assert ids == w.targetOf(c.key) <==> BaseSuffices(w, s, c);
    s', c' := ConfirmAlone(w, serve, s1, c.(phase := Confirming), ids);
  }

  lemma {:induction false} SelectedAreSmall(chunks: seq<Chunk>, changed: set<string>)
    requires Small(chunks)
    ensures Small(SelectChanged(chunks, changed))
  {
    if chunks != [] {
      SelectedAreSmall(chunks[..|chunks| - 1], changed);
    }
  }

  lemma FullUploadForgetsPhase(c1: Client, c: Client)
    requires c1 == c.(phase := c1.phase)
    ensures FullUpload(c1) == FullUpload(c)
  {
    var r := UploadRequests(c.key, c.model, c.batchSize, c.chunks, "", {});
    assert r.Some? || FullUpload(c1) == c.(phase := Failed);
  }

  lemma BaseIdsAreWithinTarget(w: World, s: Service, key: IndexKey, p: Plan)
    requires Sane(w) && Inv(w, s) && p.base != "" && HonestPlan(w, key, p) && BaseReady(w, s, key, p.base)
    ensures BaseIds(w, s, key, p.base) - p.removed <= w.targetOf(key)
  {
    var base := IndexKey(key.profile, p.base);
    GetIndexAnswersHeld(w, s, base);
    var (s1, held) := GetIndex(w.env.shardOf, s, base);
    forall d | d in held.value.documents ensures d.id in w.targetOf(base) {
      var i :| 0 <= i < |held.value.documents| && held.value.documents[i] == d;
      assert TrueDocument(w, s1.vectors, base, held.value.documents[i]);
    }
  }

  /**
   A client whose index is not there yet and that nobody disturbs returns normally, with the
   complete index, exactly when the base it reuses, if any, supplies everything its delta leaves out.
   A restart then brings the index back, unless it is a mere clone of a base that would not come back
   as it is.
   */
  lemma UndisturbedSync(w: World, s: Service, c: Client) returns (s': Service, c': Client)
    requires Sane(w) && Ready(w, s, c) && c.phase == Checking && !IndexStatus(s, c.key, |c.chunks|).1.ready
    ensures Reaches(Answering(w.env, true), s, c, s', c') && (c'.phase == Returned || c'.phase == Failed)
    ensures c'.phase == Returned <==> BaseSuffices(w, s, c)
    ensures c'.phase == Returned ==> c.key in s'.indexes && Complete(w, c.key, s'.indexes[c.key])
    ensures c'.phase == Returned ==>
              (GetIndex(w.env.shardOf, s'.Restarted(), c.key).1 == Some(s'.indexes[c.key]) <==> WillSurvive(w, s, c))
  {
    var serve := Answering(w.env, true);
    AnsweringIsReliable(w);
    StatusChangesNothing(w, s, c.key, |c.chunks|);
    ReachesOne(serve, s, c);
    s', c' := UploadingAlone(w, serve, s, c);
    ReachesTwice(serve, s, c, s, StartUpload(c), s', c');
  }

  lemma UploadingAlone(w: World, serve: Serve, s: Service, c: Client) returns (s': Service, c': Client)
    requires Sane(w) && Reliable(w, serve) && Ready(w, s, c)
    ensures Reaches(serve, s, StartUpload(c), s', c') && (c'.phase == Returned || c'.phase == Failed)
    ensures c'.phase == Returned <==> BaseSuffices(w, s, c)
    ensures c'.phase == Returned ==> c.key in s'.indexes && Complete(w, c.key, s'.indexes[c.key])
    ensures c'.phase == Returned ==>
              (GetIndex(w.env.shardOf, s'.Restarted(), c.key).1 == Some(s'.indexes[c.key]) <==> WillSurvive(w, s, c))
  {
    if c.plan.Some? && c.plan.value.base != "" {
      s', c' := DeltaAlone(w, serve, s, c);
    } else {
      s', c' := FullAlone(w, serve, s, c);
    }
    if c'.phase == Returned {
      assert w.targetOf(c.key) != {};
      CompleteComesBackIffCurrent(w, s', c);
    }
  }

  lemma CompleteComesBackIffCurrent(w: World, s: Service, c: Client)
    requires Sane(w) && Inv(w, s) && c.key in s.indexes && Complete(w, c.key, s.indexes[c.key]) && w.targetOf(c.key) != {}
    ensures GetIndex(w.env.shardOf, s.Restarted(), c.key).1 == Some(s.indexes[c.key]) <==> Current(s, c.key)
  {
    RestartBringsBackIffCurrent(w, s, c.key);
    var id :| id in w.targetOf(c.key);
    assert id in IdsOf(s.indexes[c.key].documents);
  }

  /** Two complete records of one index hold the same documents, so a delta leaves what a full upload leaves. */
  lemma CompleteRecordsAgree(w: World, key: IndexKey, delta: Record, full: Record)
    requires Complete(w, key, delta) && Complete(w, key, full)
    ensures multiset(delta.documents) == multiset(full.documents) && delta.model == full.model
  {
    CompleteMembers(w, key, delta);
    CompleteMembers(w, key, full);
    SameMembersSameMultiset(delta.documents, full.documents);
  }

  lemma CompleteMembers(w: World, key: IndexKey, r: Record)
    requires Complete(w, key, r)
    ensures Unique(r.documents)
    ensures forall d :: d in r.documents <==> d.id in w.targetOf(key) && d == DocumentFor(w, key.profile, d.id)
  {
    forall d: Document | d.id in w.targetOf(key) && d == DocumentFor(w, key.profile, d.id) ensures d in r.documents {
      assert d.id in IdsOf(r.documents);
      var i :| 0 <= i < |r.documents| && r.documents[i].id == d.id;
    }
    forall d | d in r.documents ensures d.id in w.targetOf(key) && d == DocumentFor(w, key.profile, d.id) {
      assert d.id in IdsOf(r.documents);
    }
  }

  /** The plan of `_semantic_sync_plan` is honest, and over a complete base it suffices. */
  lemma PlannedDeltaSuffices(w: World, s: Service, c: Client, previous: Manifest, signatures: map<string, string>)
    requires c.plan == SyncPlan(Some(previous), signatures, c.key.fingerprint)
    requires previous.documents.Keys == w.targetOf(IndexKey(c.key.profile, previous.fingerprint)) && signatures.Keys == w.targetOf(c.key)
    ensures c.plan.Some? ==> HonestPlan(w, c.key, c.plan.value)
    ensures var base := IndexKey(c.key.profile, previous.fingerprint);
            (Held(w, s, base).Some? ==> Complete(w, base, Held(w, s, base).value)) ==> BaseSuffices(w, s, c)
  {
    SyncPlanDescribesTheStep(Some(previous), signatures, c.key.fingerprint);
  }
}
