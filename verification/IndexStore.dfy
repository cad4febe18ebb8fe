/**
 How the retrieval service keeps a semantic index: as a record in memory, and on disk in one of
 three forms (a full file, a status file whose vectors live in the vector cache, or an alias of
 another index).  The functions say what each operation does; `Service` is the state they act on.
 */
module IndexStore {
  import opened Prelude
  import V = VectorCaches

  datatype IndexKey = IndexKey(profile: string, fingerprint: string)

  datatype Document = Document(id: string, fingerprint: string, vector: seq<real>)

  datatype Record = Record(ready: bool, model: string, documents: seq<Document>)

  datatype Meta = Meta(id: string, fingerprint: string)

  datatype Status = Status(ready: bool, documentCount: nat, model: string, identifiers: seq<string>, meta: seq<Meta>)

  type Matrix = seq<seq<real>>

  datatype Files = Files(
    full: map<IndexKey, Record>,
    aliases: map<IndexKey, IndexKey>,
    statuses: map<IndexKey, Status>,
    matrices: map<IndexKey, Matrix>)

  datatype Service = Service(indexes: map<IndexKey, Record>, files: Files, vectors: V.Store)
  {
    /** The same cache directory under a newly started process. */
    function Restarted(): Service {
      this.(indexes := map[], vectors := vectors.Restarted())
    }
  }

  function Identifiers(documents: seq<Document>): seq<string> {
    if documents == [] then []
    else
      var front, last := Identifiers(documents[..|documents| - 1]), documents[|documents| - 1];
      if last.id != "" then front + [last.id] else front
  }

  function MetaOf(documents: seq<Document>): seq<Meta> {
    if documents == [] then []
    else
      var front, last := MetaOf(documents[..|documents| - 1]), documents[|documents| - 1];
      if last.id != "" && last.fingerprint != "" then front + [Meta(last.id, last.fingerprint)] else front
  }

  function StatusOf(record: Record): Status {
    Status(record.ready, |record.documents|, record.model, Identifiers(record.documents), MetaOf(record.documents))
  }

  predicate Stored(d: Document) {
    d.id != "" && d.vector != []
  }

  predicate CanReconstruct(record: Record) {
    forall d <- record.documents :: Stored(d) && d.fingerprint != ""
  }

  /** The vectors a search multiplies with, row by row. */
  function RowsOf(documents: seq<Document>): Matrix {
    if documents == [] then []
    else
      var front, last := RowsOf(documents[..|documents| - 1]), documents[|documents| - 1];
      if Stored(last) then front + [last.vector] else front
  }

  function WriteMatrix(files: Files, key: IndexKey, documents: seq<Document>): Files {
    if RowsOf(documents) == [] then files.(matrices := files.matrices - {key})
    else files.(matrices := files.matrices[key := RowsOf(documents)])
  }

  function WriteCache(files: Files, key: IndexKey, record: Record): Files {
    WriteMatrix(
      files.(aliases := files.aliases - {key},
             full := if CanReconstruct(record) then files.full - {key} else files.full[key := record],
             statuses := files.statuses[key := StatusOf(record)]),
      key, record.documents)
  }

  /** Follows aliases; an alias that leads nowhere is unlinked.  `seen` grows along the chain, so a cycle ends. */
  function LoadCache(files: Files, key: IndexKey, seen: set<IndexKey>): (r: (Files, Option<Record>))
    decreases files.aliases.Keys - seen
  {
    if key in seen then (files, None)
    else if key in files.full then
      if forall d <- files.full[key].documents :: Stored(d) then (files, Some(files.full[key])) else (files, None)
    else if key !in files.aliases then (files, None)
    else if files.aliases[key].fingerprint == "" then (files.(aliases := files.aliases - {key}), None)
    else
      var (files', loaded) := LoadCache(files, files.aliases[key], seen + {key});
      if loaded.None? then (files'.(aliases := files'.aliases - {key}), None) else (files', loaded)
  }

  function LoadStatus(files: Files, key: IndexKey, seen: set<IndexKey>): (r: (Files, Option<Status>))
    decreases files.aliases.Keys - seen
  {
    if key in seen then (files, None)
    else if key in files.statuses then (files, Some(files.statuses[key]))
    else if key !in files.aliases then (files, None)
    else if files.aliases[key].fingerprint == "" then (files.(aliases := files.aliases - {key}), None)
    else LoadStatus(files, files.aliases[key], seen + {key})
  }

  /** The documents of a status file with their vectors looked up one by one; the first miss ends it. */
  function Rebuild(shardOf: string -> string, vectors: V.Store, model: string, meta: seq<Meta>): (V.Store, Option<seq<Document>>) {
    if meta == [] then (vectors, Some([]))
    else
      var last := meta[|meta| - 1];
      var (vectors1, front) := Rebuild(shardOf, vectors, model, meta[..|meta| - 1]);
      if front.None? then (vectors1, None)
      else
        var (vectors2, found) := V.Get(shardOf, vectors1, (model, last.fingerprint));
        if found.None? then (vectors2, None)
        else (vectors2, Some(front.value + [Document(last.id, last.fingerprint, found.value.vector)]))
  }

  function GetIndex(shardOf: string -> string, s: Service, key: IndexKey): (Service, Option<Record>) {
    if key in s.indexes then (s, Some(s.indexes[key]))
    else
      var (files1, cached) := LoadCache(s.files, key, {});
      if cached.Some? then (s.(files := files1, indexes := s.indexes[key := cached.value]), cached)
      else
        var (files2, status) := LoadStatus(files1, key, {});
        if status.Some? then FromStatus(shardOf, s.(files := files2), key, status.value) else (s.(files := files2), None)
  }

  function FromStatus(shardOf: string -> string, s: Service, key: IndexKey, status: Status): (Service, Option<Record>) {
    if status.ready && status.model != "" && status.meta != [] then
      var (vectors, documents) := Rebuild(shardOf, s.vectors, status.model, status.meta);
      if documents.None? then (s.(vectors := vectors), None)
      else
        var record := Record(true, status.model, documents.value);
        (s.(vectors := vectors, indexes := s.indexes[key := record]), Some(record))
    else (s, None)
  }

  /** The documents a clone's status file lists: those of the source's status file, or of its record. */
  function CloneSource(shardOf: string -> string, s: Service, source: IndexKey): (Service, Option<Record>) {
    var (files, status) := LoadStatus(s.files, source, {});
    if status.Some? then
      (s.(files := files), Some(Record(status.value.ready, status.value.model, Listed(status.value.meta))))
    else GetIndex(shardOf, s.(files := files), source)
  }

  function Listed(meta: seq<Meta>): seq<Document> {
    seq(|meta|, i requires 0 <= i < |meta| => Document(meta[i].id, meta[i].fingerprint, []))
  }

  function CloneCache(shardOf: string -> string, s: Service, source: IndexKey, target: IndexKey): (Service, bool) {
    if source == target then (s, true)
    else
      var (s1, record) := CloneSource(shardOf, s, source);
      if record.None? then (s1, false)
      else
        (s1.(files := s1.files.(
               full := s1.files.full - {target},
               aliases := s1.files.aliases[target := source],
               statuses := s1.files.statuses[target := StatusOf(record.value)])), true)
  }

  // ----- what a restart finds -----

  lemma {:induction false} AllIdentified(documents: seq<Document>)
    requires forall d <- documents :: d.id != ""
    ensures |Identifiers(documents)| == |documents|
    ensures forall i :: 0 <= i < |documents| ==> Identifiers(documents)[i] == documents[i].id
  {
    if documents != [] {
      AllIdentified(documents[..|documents| - 1]);
    }
  }

  lemma {:induction false} AllDescribed(documents: seq<Document>)
    requires forall d <- documents :: d.id != "" && d.fingerprint != ""
    ensures |MetaOf(documents)| == |documents|
    ensures forall i :: 0 <= i < |documents| ==> MetaOf(documents)[i] == Meta(documents[i].id, documents[i].fingerprint)
  {
    if documents != [] {
      AllDescribed(documents[..|documents| - 1]);
    }
  }

  lemma ReconstructibleMeta(documents: seq<Document>)
    requires forall d <- documents :: d.id != "" && d.fingerprint != ""
    ensures |MetaOf(documents)| == |documents| == |Identifiers(documents)|
    ensures forall i :: 0 <= i < |documents| ==> MetaOf(documents)[i] == Meta(documents[i].id, documents[i].fingerprint)
    ensures forall i :: 0 <= i < |documents| ==> Identifiers(documents)[i] == documents[i].id
  {
    AllIdentified(documents);
    AllDescribed(documents);
  }

  /** Every record cached under the fingerprint of one of the documents carries that document's vector. */
  ghost predicate CarriesVectorOf(documents: seq<Document>, model: string, key: V.VectorKey, record: V.VectorRecord) {
    forall d <- documents :: key == (model, d.fingerprint) ==> record.vector == d.vector
  }

  ghost predicate Backed(shardOf: string -> string, vectors: V.Store, model: string, documents: seq<Document>) {
    forall d <- documents :: V.Lookup(shardOf, vectors, (model, d.fingerprint)).Some?
  }

  ghost predicate Describes(meta: seq<Meta>, documents: seq<Document>) {
    |meta| == |documents| && forall i :: 0 <= i < |meta| ==> meta[i] == Meta(documents[i].id, documents[i].fingerprint)
  }

  /** Rebuilding finds every document or, at the first missing vector, nothing. */
  lemma {:induction false} RebuildFinds(shardOf: string -> string, vectors: V.Store, model: string, meta: seq<Meta>, documents: seq<Document>,
                                        ok: (V.VectorKey, V.VectorRecord) -> bool)
    requires V.Coherent(vectors) && V.Every(vectors, ok) && Describes(meta, documents)
    requires forall key, record :: ok(key, record) ==> CarriesVectorOf(documents, model, key, record) && V.Lookup(shardOf, vectors, key).Some?
    ensures var (vectors', r) := Rebuild(shardOf, vectors, model, meta);
            && V.Coherent(vectors') && V.SameFiles(vectors, vectors') && V.Every(vectors', ok)
            && r == if Backed(shardOf, vectors, model, documents) then Some(documents) else None
  {
    if meta != [] {
      var n := |meta| - 1;
      var front, last := documents[..n], documents[n];
      assert documents == front + [last];
      RebuildFinds(shardOf, vectors, model, meta[..n], front, ok);
      var (vectors1, rebuilt) := Rebuild(shardOf, vectors, model, meta[..n]);
      GetFinds(shardOf, vectors, vectors1, model, last, documents, ok);
      assert Backed(shardOf, vectors, model, documents)
        <==> Backed(shardOf, vectors, model, front) && V.Lookup(shardOf, vectors, (model, last.fingerprint)).Some?;
    }
  }

  lemma GetFinds(shardOf: string -> string, vectors: V.Store, vectors1: V.Store, model: string, last: Document, documents: seq<Document>,
                 ok: (V.VectorKey, V.VectorRecord) -> bool)
    requires V.Coherent(vectors1) && V.SameFiles(vectors, vectors1) && V.Every(vectors1, ok) && last in documents
    requires forall key, record :: ok(key, record) ==> CarriesVectorOf(documents, model, key, record) && V.Lookup(shardOf, vectors, key).Some?
    ensures var (vectors2, found) := V.Get(shardOf, vectors1, (model, last.fingerprint));
            && V.Coherent(vectors2) && V.SameFiles(vectors, vectors2) && V.Every(vectors2, ok)
            && (found.Some? <==> V.Lookup(shardOf, vectors, (model, last.fingerprint)).Some?)
            && (found.Some? ==> found.value.vector == last.vector)
  {
    var key := (model, last.fingerprint);
    V.GetLeavesFiles(shardOf, vectors1, key);
    V.GetKeepsEvery(shardOf, vectors1, key, ok);
    V.SameFilesSameLookup(shardOf, vectors, vectors1, key);
  }

  ghost predicate OnlyAliasesDropped(files: Files, files': Files) {
    && files' == files.(aliases := files'.aliases)
    && files'.aliases.Keys <= files.aliases.Keys
    && forall k <- files'.aliases :: files'.aliases[k] == files.aliases[k]
  }

  /** Loading ends on every alias graph, cyclic ones included, and answers with the full file the chain ends in. */
  lemma {:induction false} LoadCacheDropsOnlyAliases(files: Files, key: IndexKey, seen: set<IndexKey>)
    ensures var (files', r) := LoadCache(files, key, seen);
            OnlyAliasesDropped(files, files') && (r.Some? ==> r.value in files.full.Values)
    decreases files.aliases.Keys - seen
  {
    if key !in seen && key !in files.full && key in files.aliases && files.aliases[key].fingerprint != "" {
      LoadCacheDropsOnlyAliases(files, files.aliases[key], seen + {key});
    }
  }

  lemma {:induction false} ASuccessfulLoadDropsNothing(files: Files, key: IndexKey, seen: set<IndexKey>)
    ensures var (files', r) := LoadCache(files, key, seen); r.Some? ==> files' == files
    decreases files.aliases.Keys - seen
  {
    if key !in seen && key !in files.full && key in files.aliases && files.aliases[key].fingerprint != "" {
      ASuccessfulLoadDropsNothing(files, files.aliases[key], seen + {key});
    }
  }

  lemma {:induction false} LoadStatusDropsOnlyAliases(files: Files, key: IndexKey, seen: set<IndexKey>)
    ensures var (files', r) := LoadStatus(files, key, seen);
            OnlyAliasesDropped(files, files') && (r.Some? ==> r.value in files.statuses.Values)
    decreases files.aliases.Keys - seen
  {
    if key !in seen && key !in files.statuses && key in files.aliases && files.aliases[key].fingerprint != "" {
      LoadStatusDropsOnlyAliases(files, files.aliases[key], seen + {key});
    }
  }

  /** No load can be served once every alias of a cycle has been visited. */
  lemma CyclicAliasesLoadNothing(files: Files, cycle: set<IndexKey>, key: IndexKey)
    requires key in cycle && cycle !! files.full.Keys && cycle <= files.aliases.Keys
    requires forall k <- cycle :: files.aliases[k] in cycle
    ensures LoadCache(files, key, {}).1.None?
  {
    CycleLoadsNothing(files, cycle, key, {});
  }

  lemma {:induction false} CycleLoadsNothing(files: Files, cycle: set<IndexKey>, key: IndexKey, seen: set<IndexKey>)
    requires key in cycle && cycle !! files.full.Keys && cycle <= files.aliases.Keys
    requires forall k <- cycle :: files.aliases[k] in cycle
    ensures LoadCache(files, key, seen).1.None?
    decreases files.aliases.Keys - seen
  {
    if key !in seen && files.aliases[key].fingerprint != "" {
      CycleLoadsNothing(files, cycle, files.aliases[key], seen + {key});
    }
  }

  lemma {:induction false} RebuiltAreStored(shardOf: string -> string, vectors: V.Store, model: string, meta: seq<Meta>)
    requires V.LoadedVectors(vectors) && forall m <- meta :: m.id != ""
    ensures var (vectors', r) := Rebuild(shardOf, vectors, model, meta);
            V.LoadedVectors(vectors') && (r.Some? ==> forall d <- r.value :: Stored(d))
  {
    if meta != [] {
      var n := |meta| - 1;
      RebuiltAreStored(shardOf, vectors, model, meta[..n]);
      V.GetLoadsVectors(shardOf, Rebuild(shardOf, vectors, model, meta[..n]).0, (model, meta[n].fingerprint));
    }
  }

  /** A status file lists just the documents that have an id and a fingerprint. */
  lemma {:induction false} MetaMembers(documents: seq<Document>)
    ensures forall m :: m in MetaOf(documents) <==> m.id != "" && m.fingerprint != "" && Mentions(documents, m)
  {
    if documents != [] {
      var front, last := documents[..|documents| - 1], documents[|documents| - 1];
      MetaMembers(front);
      assert documents == front + [last];
      forall m ensures Mentions(documents, m) <==> Mentions(front, m) || (m.id == last.id && m.fingerprint == last.fingerprint) {
      }
    }
  }

  ghost predicate Mentions(documents: seq<Document>, m: Meta) {
    exists d :: d in documents && d.id == m.id && d.fingerprint == m.fingerprint
  }

  /** Form one: a record that cannot be rebuilt is written whole, and comes back exactly when every document has an id and a vector. */
  lemma FullFileRoundTrip(shardOf: string -> string, s: Service, key: IndexKey, record: Record)
    requires !CanReconstruct(record)
    ensures GetIndex(shardOf, s.(files := WriteCache(s.files, key, record)).Restarted(), key).1 == Some(record)
            <==> forall d <- record.documents :: Stored(d)
  {
    if !(forall d <- record.documents :: Stored(d)) {
      MetaMembers(record.documents);
      RebuiltAreStored(shardOf, s.vectors.Restarted(), record.model, MetaOf(record.documents));
    }
  }

  /** The vector cache answers for the documents' fingerprints with the documents' vectors, and finds what its files hold. */
  ghost predicate CacheServes(shardOf: string -> string, vectors: V.Store, model: string, documents: seq<Document>) {
    && V.Coherent(vectors)
    && V.Every(vectors, (key: V.VectorKey, record: V.VectorRecord) =>
         CarriesVectorOf(documents, model, key, record) && V.Lookup(shardOf, vectors, key).Some?)
  }

  lemma RestartStillServes(shardOf: string -> string, vectors: V.Store, model: string, documents: seq<Document>)
    requires CacheServes(shardOf, vectors, model, documents)
    ensures CacheServes(shardOf, vectors.Restarted(), model, documents)
    ensures Backed(shardOf, vectors.Restarted(), model, documents) <==> Backed(shardOf, vectors, model, documents)
  {
    var started := vectors.Restarted();
    forall key ensures V.Lookup(shardOf, vectors, key) == V.Lookup(shardOf, started, key) {
      V.SameFilesSameLookup(shardOf, vectors, started, key);
    }
    var served := (key: V.VectorKey, record: V.VectorRecord) =>
      CarriesVectorOf(documents, model, key, record) && V.Lookup(shardOf, vectors, key).Some?;
    V.RestartKeepsEvery(vectors, served);
    V.EveryWeakens(started, served, (key: V.VectorKey, record: V.VectorRecord) =>
      CarriesVectorOf(documents, model, key, record) && V.Lookup(shardOf, started, key).Some?);
  }

  lemma RebuildServed(shardOf: string -> string, vectors: V.Store, model: string, meta: seq<Meta>, documents: seq<Document>)
    requires CacheServes(shardOf, vectors, model, documents) && Describes(meta, documents)
    ensures Rebuild(shardOf, vectors, model, meta).1 == if Backed(shardOf, vectors, model, documents) then Some(documents) else None
  {
    RebuildFinds(shardOf, vectors, model, meta, documents,
                 (key: V.VectorKey, record: V.VectorRecord) =>
                   CarriesVectorOf(documents, model, key, record) && V.Lookup(shardOf, vectors, key).Some?);
  }

  /** Form two: a record kept as a status file comes back, documents in order, exactly when every vector is on disk. */
  lemma StatusFileRoundTrip(shardOf: string -> string, s: Service, key: IndexKey, record: Record)
    requires CanReconstruct(record) && record.ready && record.model != "" && record.documents != []
    requires CacheServes(shardOf, s.vectors, record.model, record.documents)
    ensures GetIndex(shardOf, s.(files := WriteCache(s.files, key, record)).Restarted(), key).1 == Some(record)
            <==> Backed(shardOf, s.vectors, record.model, record.documents)
  {
    ReconstructibleMeta(record.documents);
    RestartStillServes(shardOf, s.vectors, record.model, record.documents);
    RebuildServed(shardOf, s.vectors.Restarted(), record.model, MetaOf(record.documents), record.documents);
  }

  ghost predicate Lists(listed: Record, record: Record) {
    listed.ready && listed.model == record.model && MetaOf(listed.documents) == MetaOf(record.documents)
  }

  /** Without a status file anywhere along the chain, dropping dead aliases does not bring one up. */
  lemma {:induction false} StillNoStatus(files: Files, files': Files, key: IndexKey, seen: set<IndexKey>)
    requires OnlyAliasesDropped(files, files') && LoadStatus(files, key, seen).1.None?
    ensures LoadStatus(files', key, seen).1.None?
    decreases files.aliases.Keys - seen
  {
    if key !in seen && key in files'.aliases && files'.aliases[key].fingerprint != "" {
      StillNoStatus(files, files', files.aliases[key], seen + {key});
    }
  }

  /** Cloning looks no vector up: a source that is not in memory and has no status file is read whole or not at all. */
  lemma CloneKeepsVectors(shardOf: string -> string, s: Service, source: IndexKey, target: IndexKey)
    ensures CloneCache(shardOf, s, source, target).1 ==> CloneCache(shardOf, s, source, target).0.vectors == s.vectors
  {
    var files := LoadStatus(s.files, source, {}).0;
    LoadStatusDropsOnlyAliases(s.files, source, {});
    if LoadStatus(s.files, source, {}).1.None? && source !in s.indexes && LoadCache(files, source, {}).1.None? {
      LoadCacheDropsOnlyAliases(files, source, {});
      StillNoStatus(s.files, files, source, {});
      StillNoStatus(files, LoadCache(files, source, {}).0, source, {});
    }
  }

  /**
   Form three: the record of a clone comes back exactly when the full file it reads, if any, holds it or,
   without one, the list it was cloned from is its list.
   */
  lemma CloneRoundTrip(shardOf: string -> string, s: Service, source: IndexKey, target: IndexKey, record: Record)
    requires source != target && CloneCache(shardOf, s, source, target).1
    requires CanReconstruct(record) && record.ready && record.model != "" && record.documents != []
    requires CacheServes(shardOf, s.vectors, record.model, record.documents) && Backed(shardOf, s.vectors, record.model, record.documents)
    ensures var whole := LoadCache(CloneCache(shardOf, s, source, target).0.files, target, {}).1;
            GetIndex(shardOf, CloneCache(shardOf, s, source, target).0.Restarted(), target).1 == Some(record)
            <==> if whole.Some? then whole.value == record else Lists(CloneSource(shardOf, s, source).1.value, record)
  {
    var listed := CloneSource(shardOf, s, source).1.value;
    var s' := CloneCache(shardOf, s, source, target).0;
    CloneKeepsVectors(shardOf, s, source, target);
    LoadCacheDropsOnlyAliases(s'.files, target, {});
    if LoadCache(s'.files, target, {}).1.None? {
      LoadedFromStatus(shardOf, s'.Restarted(), target, StatusOf(listed));
      RestartStillServes(shardOf, s.vectors, record.model, record.documents);
      StatusBringsBack(shardOf, s.vectors.Restarted(), StatusOf(listed), record);
    }
  }

  /** Why the list matters: a source that has more in memory than its status file lists is cloned as the list, and the rest does not come back. */
  lemma ALaggingStatusIsCloned(shardOf: string -> string, s: Service, source: IndexKey, target: IndexKey, listed: Record)
    requires source != target && s.files.full == map[] && source in s.indexes
    requires source in s.files.statuses && s.files.statuses[source] == StatusOf(listed) && CanReconstruct(listed)
    requires var record := s.indexes[source];
             && CanReconstruct(record) && record.ready && record.model != "" && |listed.documents| < |record.documents|
             && CacheServes(shardOf, s.vectors, record.model, record.documents) && Backed(shardOf, s.vectors, record.model, record.documents)
    ensures var (s', cloned) := CloneCache(shardOf, s, source, target);
            cloned && GetIndex(shardOf, s'.Restarted(), target).1 != Some(s.indexes[source])
  {
    var record := s.indexes[source];
    ReconstructibleMeta(record.documents);
    ReconstructibleMeta(listed.documents);
    var s' := CloneCache(shardOf, s, source, target).0;
    LoadCacheDropsOnlyAliases(s'.files, target, {});
    ListedKeepsMeta(MetaOf(listed.documents), listed.documents);
    CloneRoundTrip(shardOf, s, source, target, record);
  }

  lemma ListedKeepsMeta(meta: seq<Meta>, documents: seq<Document>)
    requires Describes(meta, documents) && forall d <- documents :: d.id != "" && d.fingerprint != ""
    ensures MetaOf(Listed(meta)) == meta && Identifiers(Listed(meta)) == Identifiers(documents)
  {
    forall d | d in Listed(meta) ensures d.id != "" && d.fingerprint != "" {
      var i :| 0 <= i < |meta| && Listed(meta)[i] == d;
      assert documents[i] in documents;
    }
    ReconstructibleMeta(Listed(meta));
    ReconstructibleMeta(documents);
  }

  /** A clone of a source with a status file that lists documents by id and fingerprint: all it changes. */
  lemma CloneOfListed(shardOf: string -> string, s: Service, source: IndexKey, target: IndexKey, record: Record)
    requires source != target && source in s.files.statuses && s.files.statuses[source] == StatusOf(record)
    requires forall d <- record.documents :: d.id != "" && d.fingerprint != ""
    ensures CloneCache(shardOf, s, source, target)
            == (s.(files := s.files.(full := s.files.full - {target}, aliases := s.files.aliases[target := source],
                                     statuses := s.files.statuses[target := StatusOf(record)])), true)
  {
    ReconstructibleMeta(record.documents);
    ListedKeepsMeta(MetaOf(record.documents), record.documents);
  }

  /** Without memory or a full file, an index is whatever its status file lists. */
  lemma LoadedFromStatus(shardOf: string -> string, s: Service, key: IndexKey, status: Status)
    requires key !in s.indexes && LoadCache(s.files, key, {}).1.None?
    requires key in s.files.statuses && s.files.statuses[key] == status
    ensures GetIndex(shardOf, s, key).1 == FromStatus(shardOf, s, key, status).1
  {
    LoadCacheDropsOnlyAliases(s.files, key, {});
  }

  lemma StatusBringsBack(shardOf: string -> string, vectors: V.Store, status: Status, record: Record)
    requires CanReconstruct(record) && record.ready && record.model != "" && record.documents != []
    requires CacheServes(shardOf, vectors, record.model, record.documents) && Backed(shardOf, vectors, record.model, record.documents)
    ensures forall s: Service, key :: s.vectors == vectors ==>
      (FromStatus(shardOf, s, key, status).1 == Some(record)
       <==> status.ready && status.model == record.model && status.meta == MetaOf(record.documents))
  {
    ReconstructibleMeta(record.documents);
    RebuildKeepsMeta(shardOf, vectors, status.model, status.meta);
    RebuildServed(shardOf, vectors, record.model, MetaOf(record.documents), record.documents);
  }

  lemma {:induction false} RebuildKeepsMeta(shardOf: string -> string, vectors: V.Store, model: string, meta: seq<Meta>)
    ensures var r := Rebuild(shardOf, vectors, model, meta).1; r.Some? ==> Describes(meta, r.value)
  {
    if meta != [] {
      var last := meta[|meta| - 1];
      RebuildKeepsMeta(shardOf, vectors, model, meta[..|meta| - 1]);
      var (vectors1, front) := Rebuild(shardOf, vectors, model, meta[..|meta| - 1]);
      if front.Some? {
        var found := V.Get(shardOf, vectors1, (model, last.fingerprint)).1;
        if found.Some? {
          DescribesOneMore(meta, front.value, Document(last.id, last.fingerprint, found.value.vector));
        }
      }
    }
  }

  lemma DescribesOneMore(meta: seq<Meta>, documents: seq<Document>, d: Document)
    requires meta != [] && Describes(meta[..|meta| - 1], documents) && meta[|meta| - 1] == Meta(d.id, d.fingerprint)
    ensures Describes(meta, documents + [d])
  {
    forall i | 0 <= i < |documents| ensures meta[i] == Meta(documents[i].id, documents[i].fingerprint) {
      assert meta[..|meta| - 1][i] == meta[i];
    }
  }

  /** A clone of an index stored whole reads that file. */
  lemma CloneOfFullFile(shardOf: string -> string, s: Service, source: IndexKey, target: IndexKey)
    requires source != target && source.fingerprint != "" && CloneCache(shardOf, s, source, target).1
    requires source in s.files.full && forall d <- s.files.full[source].documents :: Stored(d)
    ensures GetIndex(shardOf, CloneCache(shardOf, s, source, target).0.Restarted(), target).1 == Some(s.files.full[source])
  {
    LoadStatusDropsOnlyAliases(s.files, source, {});
    LoadCacheDropsOnlyAliases(LoadStatus(s.files, source, {}).0, source, {});
    var files1, found := LoadStatus(s.files, source, {}).0, CloneSource(shardOf, s, source);
    assert found.0.files.full == s.files.full by {
      LoadCacheDropsOnlyAliases(files1, source, {});
      var files2 := LoadCache(files1, source, {}).0;
      LoadStatusDropsOnlyAliases(files2, source, {});
    }
    var s' := CloneCache(shardOf, s, source, target).0;
    var none: set<IndexKey> := {};
    assert LoadCache(s'.files, source, none + {target}) == (s'.files, Some(s.files.full[source]));
    assert LoadCache(s'.files, target, none) == (s'.files, Some(s.files.full[source]));
  }
}
