/** The retrieval adapter itself: dictionaries and files changed in place by each request. */
module Adapter {
  import opened Prelude
  import opened IndexStore
  import opened Upserts
  import V = VectorCaches

  class RetrievalServiceAdapter {
    const env: Env
    const vectors: V.VectorCache
    var indexes: map<IndexKey, Record>
    var full: map<IndexKey, Record>
    var aliases: map<IndexKey, IndexKey>
    var statuses: map<IndexKey, Status>
    var matrices: map<IndexKey, Matrix>

    ghost predicate Valid() {
      vectors.shardOf == env.shardOf
    }

    ghost function FileState(): Files
      reads this
    {
      Files(full, aliases, statuses, matrices)
    }

    ghost function State(): Service
      reads this, vectors
    {
      Service(indexes, FileState(), vectors.State())
    }

    /** A process starting over the cache directory an earlier one left. */
    constructor (env: Env, disk: Service)
      ensures Valid() && this.env == env && fresh(vectors) && State() == disk.Restarted()
    {
      this.env := env;
      vectors := new V.VectorCache(env.shardOf, disk.vectors);
      indexes := map[];
      full, aliases, statuses, matrices := disk.files.full, disk.files.aliases, disk.files.statuses, disk.files.matrices;
    }

    method LoadCache(key: IndexKey, seen: set<IndexKey>) returns (r: Option<Record>)
      modifies this`aliases
      ensures (FileState(), r) == IndexStore.LoadCache(old(FileState()), key, seen)
      decreases aliases.Keys - seen
    {
      if key in seen {
        return None;
      }
      if key !in full {
        if key !in aliases {
          return None;
        }
        if aliases[key].fingerprint == "" {
          aliases := aliases - {key};
          return None;
        }
        r := LoadCache(aliases[key], seen + {key});
        if r.None? {
          aliases := aliases - {key};
        }
        return;
      }
      for i := 0 to |full[key].documents|
        invariant forall d <- full[key].documents[..i] :: Stored(d)
      {
        if !Stored(full[key].documents[i]) {
          return None;
        }
      }
      assert full[key].documents[..|full[key].documents|] == full[key].documents;
      return Some(full[key]);
    }

    method LoadStatusCache(key: IndexKey, seen: set<IndexKey>) returns (r: Option<Status>)
      modifies this`aliases
      ensures (FileState(), r) == LoadStatus(old(FileState()), key, seen)
      decreases aliases.Keys - seen
    {
      if key in seen {
        return None;
      }
      if key in statuses {
        return Some(statuses[key]);
      }
      if key !in aliases {
        return None;
      }
      if aliases[key].fingerprint == "" {
        aliases := aliases - {key};
        return None;
      }
      r := LoadStatusCache(aliases[key], seen + {key});
    }

    method WriteCache(key: IndexKey, record: Record)
      modifies this`full, this`aliases, this`statuses, this`matrices
      ensures FileState() == IndexStore.WriteCache(old(FileState()), key, record)
    {
      aliases := aliases - {key};
      if CanReconstruct(record) {
        full := full - {key};
      } else {
        full := full[key := record];
      }
      statuses := statuses[key := StatusOf(record)];
      if RowsOf(record.documents) == [] {
        matrices := matrices - {key};
      } else {
        matrices := matrices[key := RowsOf(record.documents)];
      }
    }

    method GetIndex(key: IndexKey) returns (r: Option<Record>)
      requires Valid()
      modifies this`indexes, this`aliases, vectors`memory, vectors`files
      ensures (State(), r) == IndexStore.GetIndex(env.shardOf, old(State()), key)
    {
      if key in indexes {
        return Some(indexes[key]);
      }
      r := LoadCache(key, {});
      if r.Some? {
        indexes := indexes[key := r.value];
        return;
      }
      var status := LoadStatusCache(key, {});
      if status.Some? && status.value.ready && status.value.model != "" && status.value.meta != [] {
        var documents := RebuildDocuments(status.value.model, status.value.meta);
        if documents.None? {
          return None;
        }
        r := Some(Record(true, status.value.model, documents.value));
        indexes := indexes[key := r.value];
      }
    }

    method RebuildDocuments(model: string, meta: seq<Meta>) returns (r: Option<seq<Document>>)
      requires Valid()
      modifies vectors`memory, vectors`files
      ensures (vectors.State(), r) == Rebuild(env.shardOf, old(vectors.State()), model, meta)
    {
      var documents: seq<Document> := [];
      for i := 0 to |meta|
        invariant (vectors.State(), Some(documents)) == Rebuild(env.shardOf, old(vectors.State()), model, meta[..i])
      {
        assert meta[..i + 1][..i] == meta[..i];
        var found := vectors.GetVectorCache((model, meta[i].fingerprint));
        if found.None? {
          RebuildStops(env.shardOf, old(vectors.State()), model, meta, i + 1);
          return None;
        }
        documents := documents + [Document(meta[i].id, meta[i].fingerprint, found.value.vector)];
      }
      assert meta[..|meta|] == meta;
      return Some(documents);
    }

    method CloneCache(source: IndexKey, target: IndexKey) returns (cloned: bool)
      requires Valid()
      modifies this`indexes, this`full, this`aliases, this`statuses, vectors`memory, vectors`files
      ensures (State(), cloned) == IndexStore.CloneCache(env.shardOf, old(State()), source, target)
    {
      if source == target {
        return true;
      }
      var status := LoadStatusCache(source, {});
      var listed: Record;
      if status.Some? {
        listed := Record(status.value.ready, status.value.model, Listed(status.value.meta));
      } else {
        var record := GetIndex(source);
        if record.None? {
          return false;
        }
        listed := record.value;
      }
      full := full - {target};
      aliases := aliases[target := source];
      statuses := statuses[target := StatusOf(listed)];
      return true;
    }

    method IndexStatus(key: IndexKey, documentCount: nat) returns (answer: StatusAnswer)
      modifies this`aliases
      ensures (State(), answer) == Upserts.IndexStatus(old(State()), key, documentCount)
    {
      if key in indexes {
        var cachedCount := |indexes[key].documents|;
        return StatusAnswer(indexes[key].ready && cachedCount == documentCount, cachedCount);
      }
      var status := LoadStatusCache(key, {});
      if status.None? {
        return StatusAnswer(false, 0);
      }
      return StatusAnswer(status.value.ready && status.value.documentCount == documentCount, status.value.documentCount);
    }

    /** Puts the record in place a request works on: a copy of its base, an empty one, or the one already there. */
    method BeginUpsert(req: Request) returns (reused: bool)
      requires Valid()
      modifies this`indexes, this`aliases, vectors`memory, vectors`files
      ensures (State(), reused) == Begin(env, old(State()), req)
      ensures req.key in indexes
    {
      reused := false;
      if req.replace {
        var base: seq<Document> := [];
        if req.base != "" {
          var found := GetIndex(IndexKey(req.key.profile, req.base));
          if found.Some? && found.value.ready {
            base, reused := found.value.documents, true;
          }
        }
        indexes := indexes[req.key := Record(false, req.model, base)];
      } else if req.key !in indexes {
        indexes := indexes[req.key := Record(false, req.model, [])];
      }
    }

    method RemoveDocuments(req: Request)
      requires req.key in indexes
      modifies this`indexes
      ensures State() == Remove(old(State()), req)
    {
      var record := indexes[req.key];
      var kept: seq<Document> := [];
      for i := 0 to |record.documents|
        invariant kept == Without(record.documents[..i], req.removed)
      {
        assert record.documents[..i + 1][..i] == record.documents[..i];
        if record.documents[i].id !in req.removed {
          kept := kept + [record.documents[i]];
        }
      }
      assert record.documents[..|record.documents|] == record.documents;
      indexes := indexes[req.key := record.(documents := kept)];
    }

    /** Looks up the vector of every document; the ones without are the missing ones. */
    method PrepareDocuments(model: string, uploads: seq<Upload>) returns (r: Option<seq<Prepared>>, missing: seq<Upload>)
      requires Valid()
      modifies vectors`memory, vectors`files
      ensures (vectors.State(), r) == Prepare(env, old(vectors.State()), model, uploads)
      ensures r.Some? ==> missing == Missing(r.value)
    {
      var prepared: seq<Prepared> := [];
      missing := [];
      for i := 0 to |uploads|
        invariant (vectors.State(), Some(prepared)) == Prepare(env, old(vectors.State()), model, uploads[..i])
        invariant missing == Missing(prepared)
      {
        var upload := uploads[i];
        assert uploads[..i + 1][..i] == uploads[..i];
        if upload.id == "" {
          PrepareStops(env, old(vectors.State()), model, uploads, i + 1);
          return None, [];
        }
        var found := vectors.GetVectorCache((model, Fingerprint(env, upload)));
        var cached := None;
        if found.Some? && found.value.textHash == env.hash(upload.text) {
          cached := Some(found.value.vector);
        } else {
          missing := missing + [upload];
        }
        assert (prepared + [Prepared(upload, cached)])[..|prepared|] == prepared;
        prepared := prepared + [Prepared(upload, cached)];
      }
      assert uploads[..|uploads|] == uploads;
      return Some(prepared), missing;
    }

    /** Computes the missing vectors and keeps each of them, in memory at once and in one batch on disk. */
    method EmbedMissing(model: string, missing: seq<Upload>)
      requires Valid()
      modifies vectors`memory, vectors`files, vectors`entryFiles, vectors`shardFiles
      ensures vectors.State() == V.Keep(env.shardOf, old(vectors.State()), NewEntries(env, model, missing))
    {
      if missing != [] {
        var entries := KeepNewVectors(model, missing);
        vectors.WriteVectorCacheBatch(entries);
      }
    }

    method KeepNewVectors(model: string, missing: seq<Upload>) returns (entries: V.Entries)
      modifies vectors`memory
      ensures entries == NewEntries(env, model, missing) && vectors.memory == old(vectors.memory) + V.AsMap(entries)
    {
      entries := [];
      for i := 0 to |missing|
        invariant entries == NewEntries(env, model, missing)[..i]
        invariant vectors.memory == old(vectors.memory) + V.AsMap(entries)
      {
        var (key, record) := NewEntry(env, model, missing[i]);
        V.AsMapOneMore(entries, key, record);
        vectors.KeepInMemory(key, record);
        entries := entries + [(key, record)];
      }
    }

    /** Lays the prepared documents over the record, id by id. */
    method OverlayDocuments(req: Request, prepared: seq<Prepared>)
      requires req.key in indexes
      modifies this`indexes
      ensures State() == old(State()).(indexes := old(indexes)[req.key := Overlay(env, old(State()), req, prepared)])
    {
      var record := indexes[req.key];
      var byId: seq<Document> := [];
      for i := 0 to |record.documents|
        invariant byId == PutAll([], record.documents[..i])
      {
        assert record.documents[..i + 1][..i] == record.documents[..i];
        byId := Put(byId, record.documents[i]);
      }
      assert record.documents[..|record.documents|] == record.documents;
      var items := Items(env, req.model, prepared);
      for i := 0 to |prepared|
        invariant byId == PutAll(PutAll([], record.documents), items[..i])
      {
        assert items[..i + 1][..i] == items[..i];
        byId := Put(byId, ItemOf(env, req.model, prepared[i]));
      }
      assert items[..|items|] == items;
      indexes := indexes[req.key := Record(record.ready || req.finalize, record.model, byId)];
    }

    /** `embeds` says whether the embedding upstream answers; when it does not, the request raises. */
    method IndexUpsert(req: Request, embeds: bool) returns (response: Response)
      requires Valid()
      modifies this, vectors
      ensures (State(), response) == Upsert(env, old(State()), req, embeds)
      ensures Valid()
    {
      if req.model == "" {
        return Raised;
      }
      var reused := BeginUpsert(req);
      RemoveDocuments(req);
      response := SettleDocuments(req, reused, embeds);
    }

    method SettleDocuments(req: Request, reused: bool, embeds: bool) returns (response: Response)
      requires Valid() && req.key in indexes
      modifies this, vectors
      ensures (State(), response) == Settle(env, old(State()), req, reused, embeds)
      ensures Valid()
    {
      var prepared, missing := PrepareDocuments(req.model, req.documents);
      if prepared.None? || (missing != [] && !embeds) {
        return Raised;
      }
      ghost var looked := State();
      EmbedMissing(req.model, missing);
      OverlayDocuments(req, prepared.value);
      MissingIsPart(prepared.value);
      response := Accepted(reused, |prepared.value| - |missing|, |missing|, |indexes[req.key].documents|);
      assert response == AcceptedBy(env, looked, req, prepared.value, reused);
      if req.finalize {
        FinalizeIndex(req, reused);
      }
    }

    method FinalizeIndex(req: Request, reused: bool)
      requires Valid() && req.key in indexes
      modifies this, vectors
      ensures State() == Finalize(env, old(State()), req, reused)
      ensures Valid()
    {
      var cloned := false;
      var record := indexes[req.key];
      if reused && req.removed == {} && req.documents == [] {
        cloned := CloneCache(IndexKey(req.key.profile, req.base), req.key);
      }
      if !cloned {
        WriteCache(req.key, record);
      }
    }
  }

  lemma {:induction false} PrepareStops(env: Env, vectors: V.Store, model: string, uploads: seq<Upload>, i: nat)
    requires i <= |uploads| && Prepare(env, vectors, model, uploads[..i]).1.None?
    ensures Prepare(env, vectors, model, uploads) == Prepare(env, vectors, model, uploads[..i])
  {
    if i == |uploads| {
      assert uploads[..i] == uploads;
    } else {
      assert uploads[..|uploads| - 1][..i] == uploads[..i];
      PrepareStops(env, vectors, model, uploads[..|uploads| - 1], i);
    }
  }

  /** After the first miss the rest of the list is not looked at. */
  lemma {:induction false} RebuildStops(shardOf: string -> string, vectors: V.Store, model: string, meta: seq<Meta>, i: nat)
    requires i <= |meta| && Rebuild(shardOf, vectors, model, meta[..i]).1.None?
    ensures Rebuild(shardOf, vectors, model, meta) == Rebuild(shardOf, vectors, model, meta[..i])
  {
    if i == |meta| {
      assert meta[..i] == meta;
    } else {
      assert meta[..|meta| - 1][..i] == meta[..i];
      RebuildStops(shardOf, vectors, model, meta[..|meta| - 1], i);
    }
  }
}
