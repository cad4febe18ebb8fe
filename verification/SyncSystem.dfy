/**
 The whole protocol: any number of clients bringing any number of indexes up to date against one
 service that may fail a request, lose an answer or restart between any two of them.
 */
module SyncSystem {
  import opened Prelude
  import opened IndexStore
  import opened Upserts
  import opened Protocol
  import opened Durability
  import opened GpuClient

  /** Where a client is inside `ensure_semantic_index`. */
  datatype Phase =
    | Checking
    | Sending(requests: seq<Request>, next: nat, delta: bool, baseReused: bool)
    | Sent(delta: bool, baseReused: bool)
    | Confirming
    | Returned
    | Failed

  datatype Client = Client(key: IndexKey, model: string, chunks: seq<Chunk>, batchSize: nat, plan: Option<Plan>, phase: Phase)

  datatype System = System(service: Service, clients: seq<Client>)

  /** `embeds`: the embedding upstream answers; `answered`: the client receives the service's answer. */
  datatype Event =
    | Moves(client: nat, embeds: bool, answered: bool)
    | Reads(key: IndexKey)
    | Joins(newcomer: Client)
    | Restarts

  function SendInBatches(c: Client, chunks: seq<Chunk>, base: string, removed: set<string>, delta: bool): Client {
    var requests := UploadRequests(c.key, c.model, c.batchSize, chunks, base, removed);
    if requests.None? then c.(phase := Failed)
    else if requests.value == [] then c.(phase := Sent(delta, false))
    else c.(phase := Sending(requests.value, 0, delta, false))
  }

  function FullUpload(c: Client): Client {
    SendInBatches(c, c.chunks, "", {}, false)
  }

  function StartUpload(c: Client): Client {
    if c.plan.Some? && c.plan.value.base != "" then
      SendInBatches(c, SelectChanged(c.chunks, c.plan.value.changed), c.plan.value.base, c.plan.value.removed, true)
    else FullUpload(c)
  }

  /** One accepted request further; the first answer says whether the base was reused. */
  function Advance(c: Client, baseReused: bool): Client
    requires c.phase.Sending?
  {
    var p := c.phase;
    var reused := if p.next == 0 then baseReused else p.baseReused;
    if p.next + 1 < |p.requests| then c.(phase := Sending(p.requests, p.next + 1, p.delta, reused))
    else c.(phase := Sent(p.delta, reused))
  }

  function ClientStep(serve: Serve, s: Service, c: Client, answered: bool): (Service, Client) {
    match c.phase
    case Checking =>
      var (s', answer) := IndexStatus(s, c.key, |c.chunks|);
      (s', if !answered then c.(phase := Failed)
           else if answer.ready then c.(phase := Returned)
           else if c.chunks == [] || c.batchSize < 1 then c.(phase := Failed)
           else StartUpload(c))
    case Sending(requests, next, _, _) =>
      if next >= |requests| then (s, c)
      else
        var (s', response) := serve(s, requests[next]);
        (s', if !answered || response.Raised? then c.(phase := Failed) else Advance(c, response.baseReused))
    case Sent(delta, baseReused) => (s, if delta && !baseReused then FullUpload(c) else c.(phase := Confirming))
    case Confirming =>
      var (s', answer) := IndexStatus(s, c.key, |c.chunks|);
      (s', c.(phase := if answered && answer.ready then Returned else Failed))
    case Returned => (s, c)
    case Failed => (s, c)
  }

  function After(env: Env, sys: System, e: Event): System {
    match e
    case Moves(i, embeds, answered) =>
      if i < |sys.clients| then
        var (s, c) := ClientStep(Answering(env, embeds), sys.service, sys.clients[i], answered);
        System(s, sys.clients[i := c])
      else sys
    case Reads(key) => sys.(service := GetIndex(env.shardOf, sys.service, key).0)
    case Joins(newcomer) => sys.(clients := sys.clients + [newcomer])
    case Restarts => sys.(service := sys.service.Restarted())
  }

  function Run(env: Env, sys: System, events: seq<Event>): System {
    if events == [] then sys else After(env, Run(env, sys, events[..|events| - 1]), events[|events| - 1])
  }

  // ----- what clients are -----

  function ChunkIds(chunks: seq<Chunk>): set<string> {
    set c | c in chunks :: c.upload.id
  }

  /** A plan never keeps a chunk of its base that the index is not meant to hold. */
  ghost predicate HonestPlan(w: World, key: IndexKey, plan: Plan) {
    plan.base != "" ==> w.targetOf(IndexKey(key.profile, plan.base)) - plan.removed <= w.targetOf(key)
  }

  ghost predicate HonestChunks(w: World, key: IndexKey, chunks: seq<Chunk>) {
    forall i :: 0 <= i < |chunks| ==> HonestUpload(w, key, chunks[i].upload)
  }

  /** The client's chunks are those of its index, with the texts their ids stand for. */
  ghost predicate HonestConfig(w: World, c: Client) {
    && c.model == w.modelOf(c.key.profile)
    && HonestChunks(w, c.key, c.chunks) && ChunkIds(c.chunks) == w.targetOf(c.key)
    && (c.plan.Some? ==> HonestPlan(w, c.key, c.plan.value))
  }

  ghost predicate HonestRequests(w: World, key: IndexKey, requests: seq<Request>) {
    forall i :: 0 <= i < |requests| ==> HonestRequest(w, requests[i]) && requests[i].key == key
  }

  ghost predicate HonestClient(w: World, c: Client) {
    && HonestConfig(w, c)
    && (c.phase.Sending? || c.phase.Sent? ==> c.batchSize >= 1 && c.chunks != [])
    && (c.phase.Sending? ==> HonestRequests(w, c.key, c.phase.requests))
  }

  ghost predicate Start(w: World, sys: System) {
    Inv(w, sys.service) && forall i :: 0 <= i < |sys.clients| ==> HonestClient(w, sys.clients[i])
  }

  ghost predicate HonestEvent(w: World, e: Event) {
    e.Joins? ==> HonestClient(w, e.newcomer)
  }

  // ----- every request of an honest client is honest -----

  lemma ChunkIdsOneMore(chunks: seq<Chunk>, c: Chunk)
    ensures ChunkIds(chunks + [c]) == ChunkIds(chunks) + {c.upload.id}
  {
  }

  lemma {:induction false} SelectedAreHonest(w: World, key: IndexKey, chunks: seq<Chunk>, changed: set<string>)
    requires HonestChunks(w, key, chunks)
    ensures HonestChunks(w, key, SelectChanged(chunks, changed))
    ensures ChunkIds(SelectChanged(chunks, changed)) == ChunkIds(chunks) * changed
  {
    if chunks != [] {
      var n := |chunks| - 1;
      SelectedAreHonest(w, key, chunks[..n], changed);
      ChunkIdsOneMore(chunks[..n], chunks[n]);
      ChunkIdsOneMore(SelectChanged(chunks[..n], changed), chunks[n]);
      assert chunks == chunks[..n] + [chunks[n]];
    }
  }

  lemma {:induction false} JoinedMembers(batches: seq<seq<Chunk>>, i: nat, j: nat)
    requires i < |batches| && j < |batches[i]|
    ensures batches[i][j] in Joined(batches)
  {
    if i < |batches| - 1 {
      JoinedMembers(batches[..|batches| - 1], i, j);
    }
  }

  lemma UploadIsHonest(w: World, c: Client, chunks: seq<Chunk>, base: string, removed: set<string>, delta: bool)
    requires HonestConfig(w, c) && HonestChunks(w, c.key, chunks) && c.batchSize >= 1 && c.chunks != []
    requires base != "" ==> w.targetOf(IndexKey(c.key.profile, base)) - removed <= w.targetOf(c.key)
    ensures HonestClient(w, SendInBatches(c, chunks, base, removed, delta))
  {
    var r := UploadRequests(c.key, c.model, c.batchSize, chunks, base, removed);
    if r.Some? {
      var batches := Batches(chunks, c.batchSize, base != "" || removed != {});
      UploadIsPacked(chunks, c.batchSize, base != "" || removed != {});
      forall i: nat | i < |batches| ensures HonestRequest(w, r.value[i]) && r.value[i].key == c.key {
        RequestIsHonest(w, c, chunks, batches, base, removed, i);
      }
    }
  }

  lemma RequestIsHonest(w: World, c: Client, chunks: seq<Chunk>, batches: seq<seq<Chunk>>, base: string, removed: set<string>, i: nat)
    requires HonestConfig(w, c) && HonestChunks(w, c.key, chunks) && Joined(batches) == chunks && i < |batches|
    requires base != "" ==> w.targetOf(IndexKey(c.key.profile, base)) - removed <= w.targetOf(c.key)
    ensures HonestRequest(w, RequestFor(c.key, c.model, batches, base, removed, i))
  {
    forall u | u in Uploads(batches[i]) ensures HonestUpload(w, c.key, u) {
      var j: int :| 0 <= j < |batches[i]| && Uploads(batches[i])[j] == u;
      JoinedMembers(batches, i, j);
      assert batches[i][j] in chunks;
    }
  }

  lemma StepIsHonest(w: World, s: Service, c: Client, embeds: bool, answered: bool)
    requires Sane(w) && Inv(w, s) && HonestClient(w, c)
    ensures var (s', c') := ClientStep(Answering(w.env, embeds), s, c, answered);
            Inv(w, s') && HonestClient(w, c')
  {
    match c.phase
    case Checking =>
      StatusChangesNothing(w, s, c.key, |c.chunks|);
      if c.batchSize >= 1 && c.chunks != [] {
        StartIsHonest(w, c);
      }
    case Sending(requests, next, _, _) =>
      if next < |requests| {
        UpsertKeepsInv(w, s, requests[next], embeds);
      }
    case Sent(_, _) =>
      UploadIsHonest(w, c, c.chunks, "", {}, false);
    case Confirming =>
      StatusChangesNothing(w, s, c.key, |c.chunks|);
    case Returned =>
    case Failed =>
  }

  lemma StartIsHonest(w: World, c: Client)
    requires HonestConfig(w, c) && c.batchSize >= 1 && c.chunks != []
    ensures HonestClient(w, StartUpload(c))
  {
    if c.plan.Some? && c.plan.value.base != "" {
      SelectedAreHonest(w, c.key, c.chunks, c.plan.value.changed);
      UploadIsHonest(w, c, SelectChanged(c.chunks, c.plan.value.changed), c.plan.value.base, c.plan.value.removed, true);
    } else {
      UploadIsHonest(w, c, c.chunks, "", {}, false);
    }
  }

  lemma AfterStaysGood(w: World, sys: System, e: Event)
    requires Sane(w) && Start(w, sys) && HonestEvent(w, e)
    ensures Start(w, After(w.env, sys, e))
  {
    match e
    case Moves(i, embeds, answered) =>
      if i < |sys.clients| {
        StepIsHonest(w, sys.service, sys.clients[i], embeds, answered);
      }
    case Reads(key) => GetIndexAnswersHeld(w, sys.service, key);
    case Joins(newcomer) =>
    case Restarts => RestartKeepsInv(w, sys.service);
  }

  lemma {:induction false} RunStaysGood(w: World, sys: System, events: seq<Event>)
    requires Sane(w) && Start(w, sys) && forall i :: 0 <= i < |events| ==> HonestEvent(w, events[i])
    ensures Start(w, Run(w.env, sys, events))
  {
    if events != [] {
      RunStaysGood(w, sys, events[..|events| - 1]);
      AfterStaysGood(w, Run(w.env, sys, events[..|events| - 1]), events[|events| - 1]);
    }
  }

  // ----- safety over every run -----

  lemma ManyChunksFewIds(chunks: seq<Chunk>)
    ensures |ChunkIds(chunks)| <= |chunks|
  {
    if chunks != [] {
      var n := |chunks| - 1;
      ManyChunksFewIds(chunks[..n]);
      ChunkIdsOneMore(chunks[..n], chunks[n]);
      assert chunks == chunks[..n] + [chunks[n]];
    }
  }

  /**
   The index is complete, and it can be read unless an older full file is in the way; after a restart it is
   read as complete exactly when its status file says so or, where a full file is read, when that is.
   */
  ghost predicate Usable(w: World, s: Service, key: IndexKey) {
    && Described(w, s, key).Some? && Complete(w, key, Described(w, s, key).value)
    && (w.targetOf(key) != {} ==>
          && (Readable(w, s, key) <==> !Shadowed(w, s, key))
          && (Readable(w, s.Restarted(), key)
              <==> if Loaded(s, key).Some? then Complete(w, key, Loaded(s, key).value) else FiledReady(s, key, |w.targetOf(key)|))
          && (key !in s.indexes ==> FiledReady(s, key, |w.targetOf(key)|)))
  }

  ghost predicate Readable(w: World, s: Service, key: IndexKey) {
    var r := GetIndex(w.env.shardOf, s, key).1;
    r.Some? && Complete(w, key, r.value)
  }

  lemma ReadyIsUsable(w: World, s: Service, c: Client)
    requires Sane(w) && Inv(w, s) && HonestConfig(w, c)
    requires IndexStatus(s, c.key, |c.chunks|).1.ready
    ensures Usable(w, s, c.key)
  {
    ManyChunksFewIds(c.chunks);
    ReadyMeansComplete(w, s, c.key, |c.chunks|);
    LoadStatusIsTrue(w, s.vectors, s.files, c.key);
    if w.targetOf(c.key) != {} {
      ReadyIsReadable(w, s, c.key);
      CompleteAfterRestartIffFiled(w, s, c.key);
    }
  }

  // ----- full files of an older version -----

  lemma AfterWritesNoFullFile(w: World, sys: System, e: Event)
    requires Sane(w) && Start(w, sys)
    ensures NoNewFull(sys.service, After(w.env, sys, e).service)
  {
    match e
    case Moves(i, embeds, answered) =>
      if i < |sys.clients| {
        var s, c := sys.service, sys.clients[i];
        StatusChangesNothing(w, s, c.key, |c.chunks|);
        if c.phase.Sending? && c.phase.next < |c.phase.requests| {
          UpsertKeepsInv(w, s, c.phase.requests[c.phase.next], embeds);
        }
      }
    case Reads(key) => GetIndexAnswersHeld(w, sys.service, key);
    case Joins(newcomer) =>
    case Restarts =>
  }

  /** No run ever writes a full file. */
  lemma {:induction false} NoFullFileIsWritten(w: World, sys: System, events: seq<Event>)
    requires Sane(w) && Start(w, sys) && forall i :: 0 <= i < |events| ==> HonestEvent(w, events[i])
    ensures NoNewFull(sys.service, Run(w.env, sys, events).service)
  {
    if events != [] {
      NoFullFileIsWritten(w, sys, events[..|events| - 1]);
      RunStaysGood(w, sys, events[..|events| - 1]);
      AfterWritesNoFullFile(w, Run(w.env, sys, events[..|events| - 1]), events[|events| - 1]);
    }
  }

  /** So where there was none to begin with, a complete index can always be read, and after a restart exactly when its status file says ready. */
  lemma WithoutFullFilesUsableIsReadable(w: World, sys: System, events: seq<Event>, key: IndexKey)
    requires Sane(w) && Start(w, sys) && forall i :: 0 <= i < |events| ==> HonestEvent(w, events[i])
    requires sys.service.files.full == map[] && w.targetOf(key) != {}
    ensures var s := Run(w.env, sys, events).service;
            Usable(w, s, key) ==> Readable(w, s, key) && (Readable(w, s.Restarted(), key) <==> FiledReady(s, key, |w.targetOf(key)|))
  {
    NoFullFileIsWritten(w, sys, events);
    NothingToLoad(Run(w.env, sys, events).service.files, key);
  }

  // ----- a client that returns -----

  /** The one step by which a client returns normally is a status answer "ready". */
  lemma ReturnIsReady(env: Env, sys: System, i: nat, embeds: bool, answered: bool)
    requires i < |sys.clients| && sys.clients[i].phase != Returned
    ensures var after, c := After(env, sys, Moves(i, embeds, answered)), sys.clients[i];
            after.clients[i].phase == Returned ==>
              && answered && IndexStatus(sys.service, c.key, |c.chunks|).1.ready
              && after.service == IndexStatus(sys.service, c.key, |c.chunks|).0 && after.clients[i].key == c.key
  {
  }

  /**
   However many clients there are and however their requests, failures, lost answers and service
   restarts interleave: when a client returns normally, the index it asked for is complete.
   */
  lemma NoClientReturnsOnAPartialIndex(w: World, sys: System, events: seq<Event>, i: nat, embeds: bool, answered: bool)
    requires Sane(w) && Start(w, sys) && forall j :: 0 <= j < |events| ==> HonestEvent(w, events[j])
    requires var before := Run(w.env, sys, events); i < |before.clients| && before.clients[i].phase != Returned
    ensures var before := Run(w.env, sys, events);
            var after := After(w.env, before, Moves(i, embeds, answered));
            after.clients[i].phase == Returned ==> Usable(w, after.service, after.clients[i].key)
  {
    RunStaysGood(w, sys, events);
    var before := Run(w.env, sys, events);
    var c := before.clients[i];
    ReturnIsReady(w.env, before, i, embeds, answered);
    if After(w.env, before, Moves(i, embeds, answered)).clients[i].phase == Returned {
      StatusChangesNothing(w, before.service, c.key, |c.chunks|);
      ReadyIsUsable(w, before.service, c);
    }
  }
}
