/**
 The two requests of the index protocol as the service answers them: `index_status`, which only
 counts documents, and `index_upsert`, which replaces, removes, overlays and finalizes.
 */
module Upserts {
  import opened Prelude
  import opened IndexStore
  import V = VectorCaches

  /** What the service cannot choose: the digest, the sharding and the embedding model. */
  datatype Env = Env(hash: string -> string, shardOf: string -> string, embed: (string, string) -> seq<real>)

  /** A document as a client sends it; contentHash "" stands for missing metadata. */
  datatype Upload = Upload(id: string, text: string, contentHash: string)

  datatype Request = Request(
    key: IndexKey, model: string, documents: seq<Upload>, removed: set<string>, replace: bool, finalize: bool, base: string)

  datatype Response =
    | Accepted(baseReused: bool, reused: nat, embedded: nat, total: nat)
    | Raised

  datatype StatusAnswer = StatusAnswer(ready: bool, documentCount: nat)

  function Fingerprint(env: Env, upload: Upload): string {
    if upload.contentHash != "" then upload.contentHash else "sha256:" + env.hash(upload.text)
  }

  /** The dictionary `by_id`, in insertion order: a known id keeps its place and takes the new document, a new one goes to the end. */
  function Put(documents: seq<Document>, d: Document): seq<Document> {
    if documents == [] then [d]
    else if documents[0].id == d.id then [d] + documents[1..]
    else [documents[0]] + Put(documents[1..], d)
  }

  lemma {:induction false} NewIdGoesToTheEnd(documents: seq<Document>, d: Document)
    requires forall e <- documents :: e.id != d.id
    ensures Put(documents, d) == documents + [d]
  {
    if documents != [] {
      NewIdGoesToTheEnd(documents[1..], d);
    }
  }

  lemma {:induction false} KnownIdKeepsItsPlace(documents: seq<Document>, d: Document, i: nat)
    requires i < |documents| && documents[i].id == d.id && forall j :: 0 <= j < i ==> documents[j].id != d.id
    ensures Put(documents, d) == documents[i := d]
  {
    if i > 0 {
      KnownIdKeepsItsPlace(documents[1..], d, i - 1);
    }
  }

  function PutAll(documents: seq<Document>, items: seq<Document>): seq<Document> {
    if items == [] then documents else Put(PutAll(documents, items[..|items| - 1]), items[|items| - 1])
  }

  function Without(documents: seq<Document>, removed: set<string>): seq<Document> {
    if documents == [] then []
    else
      var front, last := Without(documents[..|documents| - 1], removed), documents[|documents| - 1];
      if last.id in removed then front else front + [last]
  }

  /** The record a request works on, before any of its documents are looked at. */
  function Begin(env: Env, s: Service, req: Request): (Service, bool) {
    if req.replace && req.base != "" then
      var (s1, found) := GetIndex(env.shardOf, s, IndexKey(req.key.profile, req.base));
      var reused := found.Some? && found.value.ready;
      (s1.(indexes := s1.indexes[req.key := Record(false, req.model, if reused then found.value.documents else [])]), reused)
    else if req.replace then (s.(indexes := s.indexes[req.key := Record(false, req.model, [])]), false)
    else if req.key in s.indexes then (s, false)
    else (s.(indexes := s.indexes[req.key := Record(false, req.model, [])]), false)
  }

  function Remove(s: Service, req: Request): Service
    requires req.key in s.indexes
  {
    var record := s.indexes[req.key];
    s.(indexes := s.indexes[req.key := record.(documents := Without(record.documents, req.removed))])
  }

  /** A looked-up document; `cached` is None when its vector must be computed. */
  datatype Prepared = Prepared(upload: Upload, cached: Option<seq<real>>)

  /** Looks every document up in the vector cache; a document without an id raises. */
  function Prepare(env: Env, vectors: V.Store, model: string, uploads: seq<Upload>): (V.Store, Option<seq<Prepared>>) {
    if uploads == [] then (vectors, Some([]))
    else
      var last := uploads[|uploads| - 1];
      var (vectors1, front) := Prepare(env, vectors, model, uploads[..|uploads| - 1]);
      if front.None? || last.id == "" then (vectors1, None)
      else
        var (vectors2, found) := V.Get(env.shardOf, vectors1, (model, Fingerprint(env, last)));
        var cached := if found.Some? && found.value.textHash == env.hash(last.text) then Some(found.value.vector) else None;
        (vectors2, Some(front.value + [Prepared(last, cached)]))
  }

  function Missing(prepared: seq<Prepared>): seq<Upload> {
    if prepared == [] then []
    else
      var front, last := Missing(prepared[..|prepared| - 1]), prepared[|prepared| - 1];
      if last.cached.None? then front + [last.upload] else front
  }

  function NewEntries(env: Env, model: string, missing: seq<Upload>): V.Entries {
    seq(|missing|, i requires 0 <= i < |missing| => NewEntry(env, model, missing[i]))
  }

  function NewEntry(env: Env, model: string, u: Upload): (V.VectorKey, V.VectorRecord) {
    ((model, Fingerprint(env, u)), V.VectorRecord(env.hash(u.text), env.embed(model, u.text)))
  }

  function ItemOf(env: Env, model: string, p: Prepared): Document {
    Document(p.upload.id, Fingerprint(env, p.upload), if p.cached.Some? then p.cached.value else env.embed(model, p.upload.text))
  }

  function Items(env: Env, model: string, prepared: seq<Prepared>): seq<Document> {
    seq(|prepared|, i requires 0 <= i < |prepared| => ItemOf(env, model, prepared[i]))
  }

  /** The record once the prepared documents are laid over it. */
  function Overlay(env: Env, s: Service, req: Request, prepared: seq<Prepared>): Record
    requires req.key in s.indexes
  {
    var record := s.indexes[req.key];
    Record(record.ready || req.finalize, record.model, PutAll(PutAll([], record.documents), Items(env, req.model, prepared)))
  }

  function Finalize(env: Env, s: Service, req: Request, reused: bool): Service
    requires req.key in s.indexes
  {
    var base := IndexKey(req.key.profile, req.base);
    if reused && req.removed == {} && req.documents == [] then
      var (s1, cloned) := CloneCache(env.shardOf, s, base, req.key);
      if cloned then s1 else s1.(files := WriteCache(s1.files, req.key, s.indexes[req.key]))
    else s.(files := WriteCache(s.files, req.key, s.indexes[req.key]))
  }

  /** `embeds` says whether the embedding upstream answers; it is asked only when a vector is missing. */
  function Upsert(env: Env, s: Service, req: Request, embeds: bool): (Service, Response) {
    if req.model == "" then (s, Raised)
    else
      var (s1, reused) := Begin(env, s, req);
      var s2 := Remove(s1, req);
      Settle(env, s2, req, reused, embeds)
  }

  /** The part of a request after its record is in place: look up, embed, overlay, finalize. */
  function Settle(env: Env, s: Service, req: Request, reused: bool, embeds: bool): (Service, Response)
    requires req.key in s.indexes
  {
    var (vectors, prepared) := Prepare(env, s.vectors, req.model, req.documents);
    var s1 := s.(vectors := vectors);
    if prepared.None? || (Missing(prepared.value) != [] && !embeds) then (s1, Raised)
    else (Commit(env, s1, req, prepared.value, reused), AcceptedBy(env, s1, req, prepared.value, reused))
  }

  function AcceptedBy(env: Env, s: Service, req: Request, prepared: seq<Prepared>, reused: bool): Response
    requires req.key in s.indexes
  {
    var embedded := |Missing(prepared)|;
    MissingIsPart(prepared);
    Accepted(reused, |prepared| - embedded, embedded, |Overlay(env, s, req, prepared).documents|)
  }

  lemma {:induction false} MissingIsPart(prepared: seq<Prepared>)
    ensures |Missing(prepared)| <= |prepared|
  {
    if prepared != [] {
      MissingIsPart(prepared[..|prepared| - 1]);
    }
  }

  function Commit(env: Env, s: Service, req: Request, prepared: seq<Prepared>, reused: bool): Service
    requires req.key in s.indexes
  {
    var record := Overlay(env, s, req, prepared);
    var s1 := s.(vectors := V.Keep(env.shardOf, s.vectors, NewEntries(env, req.model, Missing(prepared))),
                 indexes := s.indexes[req.key := record]);
    if req.finalize then Finalize(env, s1, req, reused) else s1
  }

  /** A service as its clients see it: a request in, a response out. */
  type Serve = (Service, Request) -> (Service, Response)

  function Answering(env: Env, embeds: bool): Serve {
    (s: Service, req: Request) => Upsert(env, s, req, embeds)
  }

  /** What `index_status` looks at: the record in memory or else the status file. */
  function CountedAt(s: Service, key: IndexKey): (Files, Option<(bool, nat)>) {
    if key in s.indexes then (s.files, Some((s.indexes[key].ready, |s.indexes[key].documents|)))
    else
      var (files, status) := LoadStatus(s.files, key, {});
      (files, if status.Some? then Some((status.value.ready, status.value.documentCount)) else None)
  }

  function IndexStatus(s: Service, key: IndexKey, documentCount: nat): (Service, StatusAnswer) {
    var (files, counted) := CountedAt(s, key);
    (s.(files := files),
     if counted.None? then StatusAnswer(false, 0)
     else StatusAnswer(counted.value.0 && counted.value.1 == documentCount, counted.value.1))
  }
}
