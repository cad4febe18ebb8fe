/**
 Why an answer "ready" can be trusted.  Readiness is only a document count; it means completeness
 because in every reachable state of the service, whatever the interleaving of requests, failures
 and restarts, an index holds nothing but documents of its target, each once and each with the
 vector of its text.
 */
module Protocol {
  import opened Prelude
  import opened IndexStore
  import opened Upserts
  import V = VectorCaches

  /**
   The world the clients agree on: a profile names its model, a chunk id determines its text (ids
   are content-addressed) and an index key names the set of chunk ids it is meant to hold.
   */
  datatype World = World(env: Env, modelOf: string -> string, textOf: string -> string, targetOf: IndexKey -> set<string>)

  ghost predicate Sane(w: World) {
    && Injective(w.env.hash)
    && (forall m, t :: w.env.embed(m, t) != [])
    && (forall fp :: w.env.shardOf(fp) != "")
    && (forall p :: w.modelOf(p) != "")
    && (forall key :: "" !in w.targetOf(key))
  }

  function TextFingerprint(w: World, text: string): string {
    "sha256:" + w.env.hash(text)
  }

  function VectorKeyOf(w: World, profile: string, id: string): V.VectorKey {
    (w.modelOf(profile), TextFingerprint(w, w.textOf(id)))
  }

  /** The one true document for a chunk id. */
  function DocumentFor(w: World, profile: string, id: string): Document {
    Document(id, TextFingerprint(w, w.textOf(id)), w.env.embed(w.modelOf(profile), w.textOf(id)))
  }

  ghost predicate HonestUpload(w: World, key: IndexKey, u: Upload) {
    && u.id in w.targetOf(key) && u.text == w.textOf(u.id)
    && (u.contentHash == "" || u.contentHash == TextFingerprint(w, u.text))
  }

  /** What every client of an index promises, whether it uploads in full or as a delta. */
  ghost predicate HonestRequest(w: World, req: Request) {
    && req.model == w.modelOf(req.key.profile)
    && (forall u <- req.documents :: HonestUpload(w, req.key, u))
    && (req.replace && req.base != "" ==>
          w.targetOf(IndexKey(req.key.profile, req.base)) - req.removed <= w.targetOf(req.key))
  }

  // ----- the vector cache -----

  /** A record whose vector is that of the one text its fingerprint stands for. */
  ghost predicate Linked(w: World, key: V.VectorKey, r: V.VectorRecord) {
    exists text :: key.1 == TextFingerprint(w, text) && r.textHash == w.env.hash(text) && r.vector == w.env.embed(key.0, text)
  }

  ghost predicate Found(w: World, vectors: V.Store, key: V.VectorKey) {
    V.Lookup(w.env.shardOf, vectors, key).Some?
  }

  ghost predicate Served(w: World, vectors: V.Store) {
    && V.Coherent(vectors)
    && V.Every(vectors, (k: V.VectorKey, r: V.VectorRecord) => Linked(w, k, r) && Found(w, vectors, k))
  }

  /** Nothing that could be found on disk is lost. */
  ghost predicate Keeps(w: World, vectors: V.Store, vectors': V.Store) {
    forall k :: Found(w, vectors, k) ==> Found(w, vectors', k)
  }

  lemma SameFilesFind(w: World, vectors: V.Store, vectors': V.Store)
    requires V.Coherent(vectors) && V.Coherent(vectors') && V.SameFiles(vectors, vectors')
    ensures forall k :: Found(w, vectors, k) <==> Found(w, vectors', k)
  {
    forall k ensures Found(w, vectors, k) <==> Found(w, vectors', k) {
      V.SameFilesSameLookup(w.env.shardOf, vectors, vectors', k);
    }
  }

  lemma SameFilesServe(w: World, vectors: V.Store, vectors': V.Store)
    requires Served(w, vectors) && V.Coherent(vectors') && V.SameFiles(vectors, vectors')
    requires V.Every(vectors', (k: V.VectorKey, r: V.VectorRecord) => Linked(w, k, r) && Found(w, vectors, k))
    ensures Served(w, vectors') && Keeps(w, vectors, vectors')
  {
    SameFilesFind(w, vectors, vectors');
    V.EveryWeakens(vectors', (k: V.VectorKey, r: V.VectorRecord) => Linked(w, k, r) && Found(w, vectors, k),
                   (k: V.VectorKey, r: V.VectorRecord) => Linked(w, k, r) && Found(w, vectors', k));
  }

  lemma GetServes(w: World, vectors: V.Store, key: V.VectorKey)
    requires Sane(w) && Served(w, vectors)
    ensures var (vectors', r) := V.Get(w.env.shardOf, vectors, key);
            && Served(w, vectors') && Keeps(w, vectors, vectors')
            && (r.Some? <==> Found(w, vectors, key)) && (r.Some? ==> Linked(w, key, r.value))
  {
    V.GetLeavesFiles(w.env.shardOf, vectors, key);
    V.GetKeepsEvery(w.env.shardOf, vectors, key, (k: V.VectorKey, r: V.VectorRecord) => Linked(w, k, r) && Found(w, vectors, k));
    SameFilesServe(w, vectors, V.Get(w.env.shardOf, vectors, key).0);
  }

  lemma LinkedVector(w: World, model: string, text: string, r: V.VectorRecord)
    requires Sane(w) && Linked(w, (model, TextFingerprint(w, text)), r)
    ensures r.textHash == w.env.hash(text) && r.vector == w.env.embed(model, text)
  {
    var t :| TextFingerprint(w, text) == TextFingerprint(w, t) && r.textHash == w.env.hash(t) && r.vector == w.env.embed(model, t);
    assert TextFingerprint(w, text)[7..] == w.env.hash(text) && TextFingerprint(w, t)[7..] == w.env.hash(t);
  }

  lemma EntriesLinked(w: World, entries: V.Entries)
    requires Sane(w) && forall i :: 0 <= i < |entries| ==> Linked(w, entries[i].0, entries[i].1)
    ensures forall k <- V.AsMap(entries) :: Linked(w, k, V.AsMap(entries)[k]) && V.AsMap(entries)[k].vector != []
  {
    V.AsMapMembers(entries);
    forall k | k in V.AsMap(entries) ensures Linked(w, k, V.AsMap(entries)[k]) {
      var i :| 0 <= i < |entries| && entries[i] == (k, V.AsMap(entries)[k]);
    }
  }

  lemma KeepServes(w: World, vectors: V.Store, entries: V.Entries)
    requires Sane(w) && Served(w, vectors)
    requires forall i :: 0 <= i < |entries| ==> Linked(w, entries[i].0, entries[i].1)
    ensures var vectors' := V.Keep(w.env.shardOf, vectors, entries);
            && Served(w, vectors') && Keeps(w, vectors, vectors')
            && forall i :: 0 <= i < |entries| ==> Found(w, vectors', entries[i].0)
  {
    if entries != [] {
      var vectors' := V.Keep(w.env.shardOf, vectors, entries);
      var m := V.AsMap(entries);
      EntriesLinked(w, entries);
      forall k ensures V.Coherent(vectors') && (Found(w, vectors', k) <==> k in m || Found(w, vectors, k)) {
        var vectors1 := vectors.(memory := vectors.memory + m);
        assert V.Coherent(vectors1);
        V.BatchWriteOverlaysLookup(w.env.shardOf, vectors1, entries, k);
        V.SameFilesSameLookup(w.env.shardOf, vectors, vectors1, k);
      }
      var ok := (k: V.VectorKey, r: V.VectorRecord) => Linked(w, k, r) && Found(w, vectors', k);
      EveryStillFound(w, vectors, vectors');
      V.KeepKeepsEvery(w.env.shardOf, vectors, entries, ok);
      V.AsMapMembers(entries);
    }
  }

  lemma EveryStillFound(w: World, vectors: V.Store, vectors': V.Store)
    requires Served(w, vectors) && Keeps(w, vectors, vectors')
    ensures V.Every(vectors, (k: V.VectorKey, r: V.VectorRecord) => Linked(w, k, r) && Found(w, vectors', k))
  {
    V.EveryWeakens(vectors, (k: V.VectorKey, r: V.VectorRecord) => Linked(w, k, r) && Found(w, vectors, k),
                   (k: V.VectorKey, r: V.VectorRecord) => Linked(w, k, r) && Found(w, vectors', k));
  }

  // ----- records, status files and the state -----

  ghost predicate UniqueIds(documents: seq<Document>) {
    forall i, j :: 0 <= i < j < |documents| ==> documents[i].id != documents[j].id
  }

  function IdsOf(documents: seq<Document>): set<string> {
    set d | d in documents :: d.id
  }

  ghost predicate TrueDocument(w: World, vectors: V.Store, key: IndexKey, d: Document) {
    d.id in w.targetOf(key) && d == DocumentFor(w, key.profile, d.id) && Found(w, vectors, VectorKeyOf(w, key.profile, d.id))
  }

  ghost predicate TrueDocuments(w: World, vectors: V.Store, key: IndexKey, documents: seq<Document>) {
    forall i :: 0 <= i < |documents| ==> TrueDocument(w, vectors, key, documents[i])
  }

  ghost predicate TrueRecord(w: World, vectors: V.Store, key: IndexKey, record: Record) {
    && record.model == w.modelOf(key.profile)
    && UniqueIds(record.documents) && TrueDocuments(w, vectors, key, record.documents)
  }

  /** The record a status file stands for. */
  function Reconstructed(w: World, key: IndexKey, status: Status): Record {
    Record(status.ready, status.model,
           seq(|status.meta|, i requires 0 <= i < |status.meta| => DocumentFor(w, key.profile, status.meta[i].id)))
  }

  ghost predicate TrueStatus(w: World, vectors: V.Store, key: IndexKey, status: Status) {
    TrueRecord(w, vectors, key, Reconstructed(w, key, status)) && status == StatusOf(Reconstructed(w, key, status))
  }

  ghost predicate TrueIndexes(w: World, vectors: V.Store, indexes: map<IndexKey, Record>) {
    forall key :: key in indexes ==> TrueRecord(w, vectors, key, indexes[key])
  }

  /** The one index is meant to hold nothing the other is not. */
  ghost predicate Within(w: World, part: IndexKey, whole: IndexKey) {
    part.profile == whole.profile && w.targetOf(part) <= w.targetOf(whole)
  }

  /** Full files are those an older version of the service left; this one never needs any, as all its documents carry fingerprints. */
  ghost predicate TrueFiles(w: World, vectors: V.Store, files: Files) {
    && (forall key :: key in files.full ==> TrueRecord(w, vectors, key, files.full[key]))
    && files.aliases.Keys <= files.statuses.Keys
    && (forall key :: key in files.aliases ==> Within(w, files.aliases[key], key))
    && forall key :: key in files.statuses ==> TrueStatus(w, vectors, key, files.statuses[key])
  }

  /** No full file is written. */
  ghost predicate NoNewFull(s: Service, s': Service) {
    s'.files.full.Keys <= s.files.full.Keys
  }

  ghost predicate Inv(w: World, s: Service) {
    Served(w, s.vectors) && TrueIndexes(w, s.vectors, s.indexes) && TrueFiles(w, s.vectors, s.files)
  }

  lemma KeepsRecord(w: World, vectors: V.Store, vectors': V.Store, key: IndexKey, record: Record)
    requires Keeps(w, vectors, vectors') && TrueRecord(w, vectors, key, record)
    ensures TrueRecord(w, vectors', key, record)
  {
    forall i | 0 <= i < |record.documents| ensures TrueDocument(w, vectors', key, record.documents[i]) {
      assert TrueDocument(w, vectors, key, record.documents[i]);
    }
  }

  /** A vector store that lost nothing supports everything the old one did. */
  lemma KeepsInv(w: World, s: Service, vectors: V.Store)
    requires Inv(w, s) && Served(w, vectors) && Keeps(w, s.vectors, vectors)
    ensures Inv(w, s.(vectors := vectors))
  {
    forall key | key in s.indexes ensures TrueRecord(w, vectors, key, s.indexes[key]) {
      KeepsRecord(w, s.vectors, vectors, key, s.indexes[key]);
    }
    forall key | key in s.files.full ensures TrueRecord(w, vectors, key, s.files.full[key]) {
      KeepsRecord(w, s.vectors, vectors, key, s.files.full[key]);
    }
    forall key | key in s.files.statuses ensures TrueStatus(w, vectors, key, s.files.statuses[key]) {
      KeepsRecord(w, s.vectors, vectors, key, Reconstructed(w, key, s.files.statuses[key]));
    }
  }

  lemma StatusIsTrue(w: World, vectors: V.Store, key: IndexKey, record: Record)
    requires Sane(w) && TrueRecord(w, vectors, key, record)
    ensures CanReconstruct(record) && TrueStatus(w, vectors, key, StatusOf(record))
    ensures Reconstructed(w, key, StatusOf(record)) == record
    ensures Describes(MetaOf(record.documents), record.documents)
  {
    forall d | d in record.documents ensures Stored(d) && d.fingerprint != "" {
      assert exists i :: 0 <= i < |record.documents| && record.documents[i] == d;
      assert TrueDocument(w, vectors, key, d);
    }
    ReconstructibleMeta(record.documents);
    var again := Reconstructed(w, key, StatusOf(record)).documents;
    forall i | 0 <= i < |record.documents| ensures again[i] == record.documents[i] {
      assert TrueDocument(w, vectors, key, record.documents[i]);
    }
    assert again == record.documents;
  }

  /** A record that is true of a base is true of every index whose target includes the base's. */
  lemma RecordMoves(w: World, vectors: V.Store, base: IndexKey, key: IndexKey, record: Record)
    requires TrueRecord(w, vectors, base, record) && Within(w, base, key)
    ensures TrueRecord(w, vectors, key, record)
  {
    forall i | 0 <= i < |record.documents| ensures TrueDocument(w, vectors, key, record.documents[i]) {
      assert TrueDocument(w, vectors, base, record.documents[i]);
    }
  }

  /** What a full file brings, through whatever chain of aliases, is true of the index asked for. */
  lemma {:induction false} LoadedIsTrue(w: World, vectors: V.Store, files: Files, key: IndexKey, seen: set<IndexKey>)
    requires TrueFiles(w, vectors, files)
    ensures var r := LoadCache(files, key, seen).1; r.Some? ==> TrueRecord(w, vectors, key, r.value)
    decreases files.aliases.Keys - seen
  {
    if key !in seen && key !in files.full && key in files.aliases && files.aliases[key].fingerprint != "" {
      LoadedIsTrue(w, vectors, files, files.aliases[key], seen + {key});
      var r := LoadCache(files, files.aliases[key], seen + {key}).1;
      if r.Some? {
        RecordMoves(w, vectors, files.aliases[key], key, r.value);
      }
    }
  }

  /** What an index reads from full files, its own or one that aliases lead to. */
  function Loaded(s: Service, key: IndexKey): Option<Record> {
    LoadCache(s.files, key, {}).1
  }

  lemma LoadIsTrue(w: World, vectors: V.Store, files: Files, key: IndexKey)
    requires TrueFiles(w, vectors, files)
    ensures var (files', r) := LoadCache(files, key, {});
            && TrueFiles(w, vectors, files') && files'.statuses == files.statuses && files'.full == files.full
            && (r.Some? ==> TrueRecord(w, vectors, key, r.value))
  {
    LoadCacheDropsOnlyAliases(files, key, {});
    LoadedIsTrue(w, vectors, files, key, {});
  }

  lemma LoadStatusIsTrue(w: World, vectors: V.Store, files: Files, key: IndexKey)
    requires TrueFiles(w, vectors, files)
    ensures LoadStatus(files, key, {}) == (files, if key in files.statuses then Some(files.statuses[key]) else None)
  {
  }

  lemma LinkedCarries(w: World, vectors: V.Store, key: IndexKey, documents: seq<Document>, k: V.VectorKey, r: V.VectorRecord)
    requires Sane(w) && TrueDocuments(w, vectors, key, documents) && Linked(w, k, r)
    ensures CarriesVectorOf(documents, w.modelOf(key.profile), k, r)
  {
    forall d | d in documents && k == (w.modelOf(key.profile), d.fingerprint) ensures r.vector == d.vector {
      var i :| 0 <= i < |documents| && documents[i] == d;
      assert TrueDocument(w, vectors, key, documents[i]);
      LinkedVector(w, w.modelOf(key.profile), w.textOf(d.id), r);
    }
  }

  lemma RebuildIsTrue(w: World, vectors: V.Store, key: IndexKey, documents: seq<Document>, meta: seq<Meta>)
    requires Sane(w) && Served(w, vectors) && TrueDocuments(w, vectors, key, documents) && Describes(meta, documents)
    ensures var (vectors', r) := Rebuild(w.env.shardOf, vectors, w.modelOf(key.profile), meta);
            Served(w, vectors') && Keeps(w, vectors, vectors') && r == Some(documents)
  {
    var model := w.modelOf(key.profile);
    forall k, r | Linked(w, k, r) ensures CarriesVectorOf(documents, model, k, r) {
      LinkedCarries(w, vectors, key, documents, k, r);
    }
    RebuildFinds(w.env.shardOf, vectors, model, meta, documents,
                 (k: V.VectorKey, r: V.VectorRecord) => Linked(w, k, r) && Found(w, vectors, k));
    SameFilesServe(w, vectors, Rebuild(w.env.shardOf, vectors, model, meta).0);
    forall d | d in documents ensures V.Lookup(w.env.shardOf, vectors, (model, d.fingerprint)).Some? {
      var i :| 0 <= i < |documents| && documents[i] == d;
      assert TrueDocument(w, vectors, key, documents[i]) && Found(w, vectors, VectorKeyOf(w, key.profile, d.id));
    }
  }

  /** The record a status file brings back. */
  function FromList(w: World, s: Service, key: IndexKey): Option<Record> {
    if key in s.files.statuses && s.files.statuses[key].ready && s.files.statuses[key].meta != [] then
      Some(Reconstructed(w, key, s.files.statuses[key]))
    else None
  }

  /** The record `_get_index` answers with, as a function of what memory, full files and status files hold. */
  function Held(w: World, s: Service, key: IndexKey): Option<Record> {
    if key in s.indexes then Some(s.indexes[key])
    else if Loaded(s, key).Some? then Loaded(s, key)
    else FromList(w, s, key)
  }

  lemma GetIndexAnswersHeld(w: World, s: Service, key: IndexKey)
    requires Sane(w) && Inv(w, s)
    ensures var (s', r) := GetIndex(w.env.shardOf, s, key);
            && Inv(w, s') && r == Held(w, s, key) && (r.Some? ==> TrueRecord(w, s'.vectors, key, r.value))
            && s'.files.statuses == s.files.statuses && s'.files.full == s.files.full && Keeps(w, s.vectors, s'.vectors)
            && (forall k :: k in s'.indexes <==> k in s.indexes || (k == key && r.Some?))
            && (forall k :: k in s.indexes ==> s'.indexes[k] == s.indexes[k])
            && (r.Some? ==> s'.indexes[key] == r.value)
  {
    if key in s.indexes {
      assert TrueRecord(w, s.vectors, key, s.indexes[key]);
    } else {
      LoadIsTrue(w, s.vectors, s.files, key);
      if Loaded(s, key).None? {
        ListedAnswers(w, s, key);
      }
    }
  }

  lemma ListedAnswers(w: World, s: Service, key: IndexKey)
    requires Sane(w) && Inv(w, s) && key !in s.indexes && Loaded(s, key).None?
    ensures var (s', r) := GetIndex(w.env.shardOf, s, key);
            && Inv(w, s') && r == FromList(w, s, key) && (r.Some? ==> TrueRecord(w, s'.vectors, key, r.value))
            && s'.files.statuses == s.files.statuses && s'.files.full == s.files.full && Keeps(w, s.vectors, s'.vectors)
            && s'.indexes == if r.Some? then s.indexes[key := r.value] else s.indexes
  {
    LoadIsTrue(w, s.vectors, s.files, key);
    var s1 := s.(files := LoadCache(s.files, key, {}).0);
    LoadStatusIsTrue(w, s.vectors, s1.files, key);
    assert Inv(w, s1);
    if key in s.files.statuses {
      FromStatusAnswersListed(w, s1, key);
    }
  }

  lemma FromStatusAnswersListed(w: World, s: Service, key: IndexKey)
    requires Sane(w) && Inv(w, s) && key !in s.indexes && key in s.files.statuses
    ensures var (s', r) := FromStatus(w.env.shardOf, s, key, s.files.statuses[key]);
            && Inv(w, s') && r == FromList(w, s, key) && (r.Some? ==> TrueRecord(w, s'.vectors, key, r.value))
            && s'.files == s.files && Keeps(w, s.vectors, s'.vectors)
            && s'.indexes == if r.Some? then s.indexes[key := r.value] else s.indexes
  {
    var status := s.files.statuses[key];
    assert TrueStatus(w, s.vectors, key, status);
    var record := Reconstructed(w, key, status);
    StatusIsTrue(w, s.vectors, key, record);
    RebuildIsTrue(w, s.vectors, key, record.documents, status.meta);
    var vectors := Rebuild(w.env.shardOf, s.vectors, status.model, status.meta).0;
    KeepsInv(w, s, vectors);
    KeepsRecord(w, s.vectors, vectors, key, record);
  }

  // ----- readiness -----

  lemma {:induction false} CountIsCardinality(documents: seq<Document>)
    requires UniqueIds(documents)
    ensures |IdsOf(documents)| == |documents|
  {
    if documents != [] {
      var n := |documents| - 1;
      CountIsCardinality(documents[..n]);
      assert documents == documents[..n] + [documents[n]];
      assert IdsOf(documents) == IdsOf(documents[..n]) + {documents[n].id};
    }
  }

  lemma SubsetOfSameSize<T>(a: set<T>, b: set<T>)
    requires a <= b && |a| == |b|
    ensures a == b
  {
    assert b == a + (b - a);
  }

  /** All of the target, nothing else, every chunk once and with the vector of its text. */
  ghost predicate Complete(w: World, key: IndexKey, record: Record) {
    && record.ready && record.model == w.modelOf(key.profile)
    && UniqueIds(record.documents) && IdsOf(record.documents) == w.targetOf(key)
    && forall i :: 0 <= i < |record.documents| ==> record.documents[i] == DocumentFor(w, key.profile, record.documents[i].id)
  }

  lemma FullCountIsComplete(w: World, vectors: V.Store, key: IndexKey, record: Record)
    requires TrueRecord(w, vectors, key, record) && record.ready && |record.documents| == |w.targetOf(key)|
    ensures Complete(w, key, record)
  {
    forall i | 0 <= i < |record.documents|
      ensures record.documents[i].id in w.targetOf(key) && record.documents[i] == DocumentFor(w, key.profile, record.documents[i].id)
    {
      assert TrueDocument(w, vectors, key, record.documents[i]);
    }
    CountIsCardinality(record.documents);
    SubsetOfSameSize(IdsOf(record.documents), w.targetOf(key));
  }

  /** The record that status answers are about, whether it is in memory or only listed on disk. */
  function Described(w: World, s: Service, key: IndexKey): Option<Record> {
    if key in s.indexes then Some(s.indexes[key])
    else if key in s.files.statuses then Some(Reconstructed(w, key, s.files.statuses[key]))
    else None
  }

  /**
   In a reachable state "ready" for at least as many documents as the target has ids is answered
   only for a complete index, and for exactly that many it is answered for every complete index.
   */
  lemma ReadyMeansComplete(w: World, s: Service, key: IndexKey, documentCount: nat)
    requires Sane(w) && Inv(w, s) && |w.targetOf(key)| <= documentCount
    ensures var ready := IndexStatus(s, key, documentCount).1.ready;
            && (ready ==> documentCount == |w.targetOf(key)|)
            && (documentCount == |w.targetOf(key)| ==>
                  (ready <==> Described(w, s, key).Some? && Complete(w, key, Described(w, s, key).value)))
  {
    LoadStatusIsTrue(w, s.vectors, s.files, key);
    if Described(w, s, key).Some? {
      var record := Described(w, s, key).value;
      DescribedIsTrue(w, s, key);
      CountIsCardinality(record.documents);
      HeldIsWithinTarget(w, s.vectors, key, record);
      if record.ready && |record.documents| == |w.targetOf(key)| {
        FullCountIsComplete(w, s.vectors, key, record);
      }
    }
  }

  /** A status answer counts the documents of the record it is about, whether in memory or only listed, and none when there is no record. */
  lemma StatusCountsDocuments(w: World, s: Service, key: IndexKey, documentCount: nat)
    requires Sane(w) && Inv(w, s)
    ensures IndexStatus(s, key, documentCount).1.documentCount
            == if Described(w, s, key).Some? then |IdsOf(Described(w, s, key).value.documents)| else 0
  {
    LoadStatusIsTrue(w, s.vectors, s.files, key);
    if Described(w, s, key).Some? {
      DescribedIsTrue(w, s, key);
      CountIsCardinality(Described(w, s, key).value.documents);
    }
  }

  lemma DescribedIsTrue(w: World, s: Service, key: IndexKey)
    requires Sane(w) && Inv(w, s) && Described(w, s, key).Some?
    ensures TrueRecord(w, s.vectors, key, Described(w, s, key).value)
    ensures key !in s.indexes ==> s.files.statuses[key].documentCount == |Described(w, s, key).value.documents|
  {
    if key !in s.indexes {
      assert TrueStatus(w, s.vectors, key, s.files.statuses[key]);
      StatusIsTrue(w, s.vectors, key, Described(w, s, key).value);
    }
  }

  lemma HeldIsWithinTarget(w: World, vectors: V.Store, key: IndexKey, record: Record)
    requires TrueRecord(w, vectors, key, record)
    ensures |record.documents| <= |w.targetOf(key)|
  {
    CountIsCardinality(record.documents);
    forall d | d in record.documents ensures d.id in w.targetOf(key) {
      var i :| 0 <= i < |record.documents| && record.documents[i] == d;
      assert TrueDocument(w, vectors, key, record.documents[i]);
    }
    SubsetIsSmaller(IdsOf(record.documents), w.targetOf(key));
  }

  lemma SubsetIsSmaller<T>(a: set<T>, b: set<T>)
    requires a <= b
    ensures |a| <= |b|
  {
    assert b == a + (b - a);
  }

  /** An older full file, the index's own or one that aliases lead to, is read instead of what is listed, and is not complete. */
  ghost predicate Shadowed(w: World, s: Service, key: IndexKey) {
    key !in s.indexes && Loaded(s, key).Some? && !Complete(w, key, Loaded(s, key).value)
  }

  /** After "ready" the index can be read, and what is read is complete, exactly when no full file is in the way. */
  lemma ReadyIsReadable(w: World, s: Service, key: IndexKey)
    requires Sane(w) && Inv(w, s) && w.targetOf(key) != {}
    requires Described(w, s, key).Some? && Complete(w, key, Described(w, s, key).value)
    ensures var r := GetIndex(w.env.shardOf, s, key).1; (r.Some? && Complete(w, key, r.value)) <==> !Shadowed(w, s, key)
  {
    GetIndexAnswersHeld(w, s, key);
    var record := Described(w, s, key).value;
    assert record.documents == [] ==> IdsOf(record.documents) == {};
  }

  /** Where there are no full files nothing is ever in the way. */
  lemma NothingToLoad(files: Files, key: IndexKey)
    requires files.full == map[]
    ensures LoadCache(files, key, {}).1.None?
  {
    LoadCacheDropsOnlyAliases(files, key, {});
  }

  // ----- the invariant is kept -----

  lemma RestartKeepsInv(w: World, s: Service)
    requires Inv(w, s)
    ensures Inv(w, s.Restarted())
  {
    var vectors := s.vectors.Restarted();
    SameFilesServe(w, s.vectors, vectors);
    KeepsInv(w, s, vectors);
  }

  lemma StatusChangesNothing(w: World, s: Service, key: IndexKey, documentCount: nat)
    requires Inv(w, s)
    ensures IndexStatus(s, key, documentCount).0 == s
  {
    LoadStatusIsTrue(w, s.vectors, s.files, key);
  }

  lemma OneMoreId(documents: seq<Document>, d: Document)
    ensures IdsOf(documents + [d]) == IdsOf(documents) + {d.id}
    ensures UniqueIds(documents) && d.id !in IdsOf(documents) ==> UniqueIds(documents + [d])
  {
    if UniqueIds(documents) && d.id !in IdsOf(documents) {
      forall i | 0 <= i < |documents| ensures documents[i].id != d.id {
        assert documents[i].id in IdsOf(documents);
      }
    }
  }

  lemma FrontIds(documents: seq<Document>)
    requires documents != []
    ensures var n := |documents| - 1;
            IdsOf(documents) == IdsOf(documents[..n]) + {documents[n].id}
    ensures UniqueIds(documents) ==> UniqueIds(documents[..|documents| - 1]) && documents[|documents| - 1].id !in IdsOf(documents[..|documents| - 1])
  {
    OneMoreId(documents[..|documents| - 1], documents[|documents| - 1]);
    assert documents == documents[..|documents| - 1] + [documents[|documents| - 1]];
  }

  lemma HeadIds(documents: seq<Document>)
    requires documents != []
    ensures IdsOf(documents) == {documents[0].id} + IdsOf(documents[1..])
    ensures UniqueIds(documents) <==> UniqueIds(documents[1..]) && documents[0].id !in IdsOf(documents[1..])
  {
    assert documents == [documents[0]] + documents[1..];
    var rest := documents[1..];
    if UniqueIds(documents) {
      forall d | d in rest ensures d.id != documents[0].id {
        var i :| 0 <= i < |rest| && rest[i] == d;
        assert documents[i + 1] == d;
      }
    }
    if UniqueIds(rest) && documents[0].id !in IdsOf(rest) {
      forall i, j | 0 <= i < j < |documents| ensures documents[i].id != documents[j].id {
        assert documents[j] == rest[j - 1] && documents[j] in rest;
        assert i > 0 ==> documents[i] == rest[i - 1];
      }
    }
  }

  lemma {:induction false} PutShape(documents: seq<Document>, d: Document)
    requires UniqueIds(documents)
    ensures UniqueIds(Put(documents, d)) && IdsOf(Put(documents, d)) == IdsOf(documents) + {d.id}
    ensures forall i :: 0 <= i < |Put(documents, d)| ==> Put(documents, d)[i] == d || Put(documents, d)[i] in documents
  {
    if documents != [] {
      var rest := documents[1..];
      HeadIds(documents);
      if documents[0].id == d.id {
        HeadIds([d] + rest);
        assert ([d] + rest)[1..] == rest;
      } else {
        PutShape(rest, d);
        HeadIds([documents[0]] + Put(rest, d));
        assert ([documents[0]] + Put(rest, d))[1..] == Put(rest, d);
      }
    } else {
      OneMoreId([], d);
    }
  }

  lemma PutKeepsTrue(w: World, vectors: V.Store, key: IndexKey, documents: seq<Document>, d: Document)
    requires UniqueIds(documents) && TrueDocuments(w, vectors, key, documents) && TrueDocument(w, vectors, key, d)
    ensures UniqueIds(Put(documents, d)) && TrueDocuments(w, vectors, key, Put(documents, d))
    ensures IdsOf(Put(documents, d)) == IdsOf(documents) + {d.id}
  {
    PutShape(documents, d);
  }

  lemma {:induction false} PutAllKeepsTrue(w: World, vectors: V.Store, key: IndexKey, documents: seq<Document>, items: seq<Document>)
    requires UniqueIds(documents) && TrueDocuments(w, vectors, key, documents) && TrueDocuments(w, vectors, key, items)
    ensures UniqueIds(PutAll(documents, items)) && TrueDocuments(w, vectors, key, PutAll(documents, items))
    ensures IdsOf(PutAll(documents, items)) == IdsOf(documents) + IdsOf(items)
  {
    if items != [] {
      var n := |items| - 1;
      PutAllKeepsTrue(w, vectors, key, documents, items[..n]);
      assert TrueDocument(w, vectors, key, items[n]);
      PutKeepsTrue(w, vectors, key, PutAll(documents, items[..n]), items[n]);
      FrontIds(items);
    }
  }

  lemma {:induction false} WithoutKeepsTrue(w: World, vectors: V.Store, base: IndexKey, key: IndexKey, documents: seq<Document>, removed: set<string>)
    requires UniqueIds(documents) && TrueDocuments(w, vectors, base, documents)
    requires base.profile == key.profile && w.targetOf(base) - removed <= w.targetOf(key)
    ensures UniqueIds(Without(documents, removed)) && TrueDocuments(w, vectors, key, Without(documents, removed))
    ensures IdsOf(Without(documents, removed)) == IdsOf(documents) - removed
  {
    if documents != [] {
      var n := |documents| - 1;
      WithoutKeepsTrue(w, vectors, base, key, documents[..n], removed);
      FrontIds(documents);
      assert TrueDocument(w, vectors, base, documents[n]);
      if documents[n].id !in removed {
        OneMoreId(Without(documents[..n], removed), documents[n]);
      }
    }
  }

  // ----- one request -----

  ghost predicate ReusesBase(w: World, s: Service, req: Request) {
    && req.replace && req.base != ""
    && var held := Held(w, s, IndexKey(req.key.profile, req.base)); held.Some? && held.value.ready
  }

  /** The chunk ids a request starts from: those of its base, none, or those already uploaded. */
  ghost function StartIds(w: World, s: Service, req: Request): set<string> {
    if ReusesBase(w, s, req) then IdsOf(Held(w, s, IndexKey(req.key.profile, req.base)).value.documents)
    else if req.replace || req.key !in s.indexes then {}
    else IdsOf(s.indexes[req.key].documents)
  }

  function UploadIds(uploads: seq<Upload>): set<string> {
    set u | u in uploads :: u.id
  }

  lemma SetRecord(w: World, s: Service, key: IndexKey, record: Record)
    requires Inv(w, s) && TrueRecord(w, s.vectors, key, record)
    ensures Inv(w, s.(indexes := s.indexes[key := record]))
  {
  }

  /** What a request has done before it looks at its documents. */
  ghost predicate Begun(w: World, s: Service, req: Request, s2: Service, reused: bool) {
    && Inv(w, s2) && (reused <==> ReusesBase(w, s, req)) && s2.files.statuses == s.files.statuses && req.key in s2.indexes && NoNewFull(s, s2)
    && IdsOf(s2.indexes[req.key].documents) == StartIds(w, s, req) - req.removed
    && s2.indexes[req.key].ready == (!req.replace && req.key in s.indexes && s.indexes[req.key].ready)
    && (forall k :: k in s.indexes && k != req.key ==> k in s2.indexes && s2.indexes[k] == s.indexes[k])
    && (reused ==> var base := IndexKey(req.key.profile, req.base);
                   base in s2.indexes && (base != req.key ==> s2.indexes[base] == Held(w, s, base).value))
  }

  function BaseDocuments(held: Option<Record>): seq<Document> {
    if held.Some? && held.value.ready then held.value.documents else []
  }

  /** A base less the removals, put in place of the index, is true of it. */
  lemma StartOverBase(w: World, s: Service, req: Request, held: Option<Record>)
    requires Inv(w, s) && HonestRequest(w, req) && req.replace && req.base != ""
    requires held.Some? ==> TrueRecord(w, s.vectors, IndexKey(req.key.profile, req.base), held.value)
    ensures var documents := Without(BaseDocuments(held), req.removed);
            && Inv(w, s.(indexes := s.indexes[req.key := Record(false, req.model, documents)]))
            && IdsOf(documents) == IdsOf(BaseDocuments(held)) - req.removed
  {
    WithoutKeepsTrue(w, s.vectors, IndexKey(req.key.profile, req.base), req.key, BaseDocuments(held), req.removed);
    SetRecord(w, s, req.key, Record(false, req.model, Without(BaseDocuments(held), req.removed)));
  }

  /** What replacing and removing come to, given the answer for the base. */
  lemma BegunOverBase(env: Env, s: Service, req: Request, s0: Service, found: Option<Record>)
    requires req.replace && req.base != "" && (s0, found) == GetIndex(env.shardOf, s, IndexKey(req.key.profile, req.base))
    ensures var (s1, reused) := Begin(env, s, req);
            && reused == (found.Some? && found.value.ready)
            && Remove(s1, req) == s0.(indexes := s0.indexes[req.key := Record(false, req.model, Without(BaseDocuments(found), req.removed))])
  {
  }

  lemma BegunState(w: World, s: Service, req: Request, s0: Service, found: Option<Record>, s2: Service)
    requires Inv(w, s2) && req.replace && req.base != "" && s0.files.statuses == s.files.statuses && NoNewFull(s, s0)
    requires var base := IndexKey(req.key.profile, req.base);
             found == Held(w, s, base) && (found.Some? ==> base in s0.indexes && s0.indexes[base] == found.value)
    requires forall k :: k in s.indexes ==> k in s0.indexes && s0.indexes[k] == s.indexes[k]
    requires var documents := Without(BaseDocuments(found), req.removed);
             && s2 == s0.(indexes := s0.indexes[req.key := Record(false, req.model, documents)])
             && IdsOf(documents) == IdsOf(BaseDocuments(found)) - req.removed
    ensures Begun(w, s, req, s2, found.Some? && found.value.ready)
  {
    assert IdsOf([]) == {};
  }

  lemma BeginOverBase(w: World, s: Service, req: Request)
    requires Sane(w) && Inv(w, s) && HonestRequest(w, req) && req.replace && req.base != ""
    ensures var (s1, reused) := Begin(w.env, s, req); Begun(w, s, req, Remove(s1, req), reused)
  {
    var base := IndexKey(req.key.profile, req.base);
    GetIndexAnswersHeld(w, s, base);
    var (s0, found) := GetIndex(w.env.shardOf, s, base);
    StartOverBase(w, s0, req, found);
    BegunOverBase(w.env, s, req, s0, found);
    BegunState(w, s, req, s0, found, Remove(Begin(w.env, s, req).0, req));
  }

  lemma BeginPlain(w: World, s: Service, req: Request)
    requires Sane(w) && Inv(w, s) && HonestRequest(w, req) && !(req.replace && req.base != "")
    ensures var (s1, reused) := Begin(w.env, s, req); Begun(w, s, req, Remove(s1, req), reused)
  {
    var known := !req.replace && req.key in s.indexes;
    var record := if known then s.indexes[req.key] else Record(false, req.model, []);
    assert TrueRecord(w, s.vectors, req.key, record);
    WithoutKeepsTrue(w, s.vectors, req.key, req.key, record.documents, req.removed);
    SetRecord(w, s, req.key, record.(documents := Without(record.documents, req.removed)));
  }

  lemma BeginKeepsInv(w: World, s: Service, req: Request)
    requires Sane(w) && Inv(w, s) && HonestRequest(w, req)
    ensures var (s1, reused) := Begin(w.env, s, req); Begun(w, s, req, Remove(s1, req), reused)
  {
    if req.replace && req.base != "" {
      BeginOverBase(w, s, req);
    } else {
      BeginPlain(w, s, req);
    }
  }

  ghost predicate PreparedFrom(w: World, vectors: V.Store, model: string, prepared: seq<Prepared>, uploads: seq<Upload>) {
    && |prepared| == |uploads|
    && forall i :: 0 <= i < |uploads| ==>
         && prepared[i].upload == uploads[i]
         && (prepared[i].cached.Some? ==>
               && prepared[i].cached.value == w.env.embed(model, uploads[i].text)
               && Found(w, vectors, (model, Fingerprint(w.env, uploads[i]))))
  }

  lemma HonestFingerprint(w: World, key: IndexKey, u: Upload)
    requires HonestUpload(w, key, u)
    ensures Fingerprint(w.env, u) == TextFingerprint(w, u.text)
  {
  }

  lemma LookUpIsTrue(w: World, vectors: V.Store, key: IndexKey, u: Upload)
    requires Sane(w) && Served(w, vectors) && HonestUpload(w, key, u)
    ensures var model := w.modelOf(key.profile);
            var (vectors', found) := V.Get(w.env.shardOf, vectors, (model, Fingerprint(w.env, u)));
            && Served(w, vectors') && Keeps(w, vectors, vectors')
            && (found.Some? ==>
                  && found.value.textHash == w.env.hash(u.text) && found.value.vector == w.env.embed(model, u.text)
                  && Found(w, vectors', (model, Fingerprint(w.env, u))))
  {
    var model := w.modelOf(key.profile);
    HonestFingerprint(w, key, u);
    GetServes(w, vectors, (model, Fingerprint(w.env, u)));
    var found := V.Get(w.env.shardOf, vectors, (model, Fingerprint(w.env, u))).1;
    if found.Some? {
      LinkedVector(w, model, u.text, found.value);
    }
  }

  lemma PreparedOneMore(w: World, vectors: V.Store, vectors': V.Store, model: string, front: seq<Prepared>, uploads: seq<Upload>,
                        prepared: seq<Prepared>)
    requires uploads != [] && PreparedFrom(w, vectors, model, front, uploads[..|uploads| - 1]) && Keeps(w, vectors, vectors')
    requires |prepared| == |uploads| && prepared[..|uploads| - 1] == front
    requires var last, p := uploads[|uploads| - 1], prepared[|uploads| - 1];
             && p.upload == last
             && (p.cached.Some? ==> p.cached.value == w.env.embed(model, last.text) && Found(w, vectors', (model, Fingerprint(w.env, last))))
    ensures PreparedFrom(w, vectors', model, prepared, uploads)
  {
    var n := |uploads| - 1;
    forall i | 0 <= i < n
      ensures prepared[i] == front[i] && uploads[..n][i] == uploads[i]
    {
      assert prepared[..n][i] == prepared[i];
    }
  }

  lemma {:induction false} PrepareIsTrue(w: World, vectors: V.Store, key: IndexKey, uploads: seq<Upload>)
    requires Sane(w) && Served(w, vectors) && forall u <- uploads :: HonestUpload(w, key, u)
    ensures var (vectors', prepared) := Prepare(w.env, vectors, w.modelOf(key.profile), uploads);
            && Served(w, vectors') && Keeps(w, vectors, vectors')
            && prepared.Some? && PreparedFrom(w, vectors', w.modelOf(key.profile), prepared.value, uploads)
  {
    if uploads != [] {
      var n, model := |uploads| - 1, w.modelOf(key.profile);
      PrepareIsTrue(w, vectors, key, uploads[..n]);
      var (vectors1, front) := Prepare(w.env, vectors, model, uploads[..n]);
      LookUpIsTrue(w, vectors1, key, uploads[n]);
      var vectors2 := V.Get(w.env.shardOf, vectors1, (model, Fingerprint(w.env, uploads[n]))).0;
      PreparedOneMore(w, vectors1, vectors2, model, front.value, uploads, Prepare(w.env, vectors, model, uploads).1.value);
    }
  }

  lemma {:induction false} MissingUploads(prepared: seq<Prepared>)
    ensures forall u <- Missing(prepared) :: exists i :: 0 <= i < |prepared| && prepared[i].upload == u
    ensures forall i :: 0 <= i < |prepared| && prepared[i].cached.None? ==> prepared[i].upload in Missing(prepared)
  {
    if prepared != [] {
      MissingUploads(prepared[..|prepared| - 1]);
    }
  }

  lemma NewEntriesAreLinked(w: World, key: IndexKey, missing: seq<Upload>)
    requires forall u <- missing :: HonestUpload(w, key, u)
    ensures var entries := NewEntries(w.env, w.modelOf(key.profile), missing);
            forall i :: 0 <= i < |entries| ==> Linked(w, entries[i].0, entries[i].1)
  {
    var entries := NewEntries(w.env, w.modelOf(key.profile), missing);
    forall i | 0 <= i < |entries| ensures Linked(w, entries[i].0, entries[i].1) {
      HonestFingerprint(w, key, missing[i]);
    }
  }

  lemma ItemsAreTrue(w: World, vectors: V.Store, vectors': V.Store, key: IndexKey, prepared: seq<Prepared>, uploads: seq<Upload>)
    requires Sane(w) && forall u <- uploads :: HonestUpload(w, key, u)
    requires PreparedFrom(w, vectors, w.modelOf(key.profile), prepared, uploads) && Keeps(w, vectors, vectors')
    requires forall u <- Missing(prepared) :: Found(w, vectors', (w.modelOf(key.profile), Fingerprint(w.env, u)))
    ensures TrueDocuments(w, vectors', key, Items(w.env, w.modelOf(key.profile), prepared))
    ensures IdsOf(Items(w.env, w.modelOf(key.profile), prepared)) == UploadIds(uploads)
  {
    var items := Items(w.env, w.modelOf(key.profile), prepared);
    MissingUploads(prepared);
    forall i | 0 <= i < |items| ensures TrueDocument(w, vectors', key, items[i]) && items[i].id == uploads[i].id {
      assert HonestUpload(w, key, uploads[i]);
      HonestFingerprint(w, key, uploads[i]);
    }
    forall u | u in uploads ensures u.id in IdsOf(items) {
      var i :| 0 <= i < |uploads| && uploads[i] == u;
      assert items[i] in items;
    }
  }

  lemma WriteCacheKeepsInv(w: World, s: Service, key: IndexKey, record: Record)
    requires Sane(w) && Inv(w, s) && TrueRecord(w, s.vectors, key, record)
    ensures var s' := s.(files := WriteCache(s.files, key, record)); Inv(w, s') && NoNewFull(s, s')
  {
    StatusIsTrue(w, s.vectors, key, record);
  }

  lemma CloneKeepsInv(w: World, s: Service, base: IndexKey, key: IndexKey)
    requires Sane(w) && Inv(w, s) && base in s.indexes && base.profile == key.profile && w.targetOf(base) <= w.targetOf(key)
    ensures var (s', cloned) := CloneCache(w.env.shardOf, s, base, key);
            cloned && Inv(w, s') && s'.indexes == s.indexes && NoNewFull(s, s')
  {
    LoadStatusIsTrue(w, s.vectors, s.files, base);
    if base != key {
      var record := Held(w, s, base).value;
      assert TrueRecord(w, s.vectors, base, record);
      if base in s.files.statuses {
        var status := s.files.statuses[base];
        assert TrueStatus(w, s.vectors, base, status);
        record := Reconstructed(w, base, status);
        StatusIsTrue(w, s.vectors, base, record);
        ListedKeepsMeta(status.meta, record.documents);
      }
      RecordMoves(w, s.vectors, base, key, record);
      StatusIsTrue(w, s.vectors, key, record);
    }
  }

  lemma FinalizeKeepsInv(w: World, s: Service, req: Request, reused: bool)
    requires Sane(w) && Inv(w, s) && HonestRequest(w, req) && req.key in s.indexes
    requires reused ==> req.replace && req.base != "" && IndexKey(req.key.profile, req.base) in s.indexes
    ensures var s' := Finalize(w.env, s, req, reused); Inv(w, s') && s'.indexes == s.indexes && NoNewFull(s, s')
  {
    if reused && req.removed == {} && req.documents == [] {
      CloneKeepsInv(w, s, IndexKey(req.key.profile, req.base), req.key);
    } else {
      WriteCacheKeepsInv(w, s, req.key, s.indexes[req.key]);
    }
  }

  /** Keeping the new vectors makes every document of the request a true one. */
  lemma KeptItemsAreTrue(w: World, vectors: V.Store, key: IndexKey, prepared: seq<Prepared>, uploads: seq<Upload>)
    requires Sane(w) && Served(w, vectors) && forall u <- uploads :: HonestUpload(w, key, u)
    requires PreparedFrom(w, vectors, w.modelOf(key.profile), prepared, uploads)
    ensures var model := w.modelOf(key.profile);
            var vectors' := V.Keep(w.env.shardOf, vectors, NewEntries(w.env, model, Missing(prepared)));
            && Served(w, vectors') && Keeps(w, vectors, vectors')
            && TrueDocuments(w, vectors', key, Items(w.env, model, prepared))
            && IdsOf(Items(w.env, model, prepared)) == UploadIds(uploads)
  {
    var model, missing := w.modelOf(key.profile), Missing(prepared);
    MissingUploads(prepared);
    forall u | u in missing ensures HonestUpload(w, key, u) {
      var i :| 0 <= i < |prepared| && prepared[i].upload == u;
      assert uploads[i] in uploads;
    }
    NewEntriesAreLinked(w, key, missing);
    var entries := NewEntries(w.env, model, missing);
    KeepServes(w, vectors, entries);
    var vectors' := V.Keep(w.env.shardOf, vectors, entries);
    forall u | u in missing ensures Found(w, vectors', (model, Fingerprint(w.env, u))) {
      var i :| 0 <= i < |missing| && missing[i] == u;
      assert entries[i].0 == (model, Fingerprint(w.env, u));
    }
    ItemsAreTrue(w, vectors, vectors', key, prepared, uploads);
  }

  lemma OverlayIsTrue(w: World, vectors: V.Store, key: IndexKey, record: Record, items: seq<Document>, ready: bool)
    requires TrueRecord(w, vectors, key, record) && TrueDocuments(w, vectors, key, items)
    ensures TrueRecord(w, vectors, key, Record(ready, record.model, PutAll(PutAll([], record.documents), items)))
    ensures IdsOf(PutAll(PutAll([], record.documents), items)) == IdsOf(record.documents) + IdsOf(items)
  {
    PutAllKeepsTrue(w, vectors, key, [], record.documents);
    PutAllKeepsTrue(w, vectors, key, PutAll([], record.documents), items);
    assert IdsOf([]) == {};
  }

  lemma CommitKeepsInv(w: World, s: Service, req: Request, prepared: seq<Prepared>, reused: bool)
    requires Sane(w) && Inv(w, s) && HonestRequest(w, req) && req.key in s.indexes
    requires PreparedFrom(w, s.vectors, req.model, prepared, req.documents)
    requires reused ==> req.replace && req.base != "" && IndexKey(req.key.profile, req.base) in s.indexes
    ensures var s' := Commit(w.env, s, req, prepared, reused);
            && Inv(w, s') && s'.indexes == s.indexes[req.key := Overlay(w.env, s, req, prepared)] && NoNewFull(s, s')
            && IdsOf(s'.indexes[req.key].documents) == IdsOf(s.indexes[req.key].documents) + UploadIds(req.documents)
  {
    var vectors := V.Keep(w.env.shardOf, s.vectors, NewEntries(w.env, req.model, Missing(prepared)));
    KeptItemsAreTrue(w, s.vectors, req.key, prepared, req.documents);
    KeepsInv(w, s, vectors);
    var record := s.indexes[req.key];
    OverlayIsTrue(w, vectors, req.key, record, Items(w.env, req.model, prepared), record.ready || req.finalize);
    var s1 := s.(vectors := vectors, indexes := s.indexes[req.key := Overlay(w.env, s, req, prepared)]);
    SetRecord(w, s.(vectors := vectors), req.key, Overlay(w.env, s, req, prepared));
    if req.finalize {
      FinalizeKeepsInv(w, s1, req, reused);
    }
  }

  /** What an honest request does: whether it succeeds or raises the invariant stays, and success says what the index holds. */
  ghost predicate Effect(w: World, s: Service, req: Request, s': Service, response: Response) {
    && Inv(w, s') && req.key in s'.indexes && NoNewFull(s, s')
    && (response.Accepted? ==>
          && response.baseReused == ReusesBase(w, s, req)
          && IdsOf(s'.indexes[req.key].documents) == StartIds(w, s, req) - req.removed + UploadIds(req.documents)
          && s'.indexes[req.key].ready == (req.finalize || (!req.replace && req.key in s.indexes && s.indexes[req.key].ready)))
    && (forall k :: k in s.indexes && k != req.key ==> k in s'.indexes && s'.indexes[k] == s.indexes[k])
  }

  /** What is settled in a request once its record is in place. */
  ghost predicate Settled(w: World, s: Service, req: Request, reused: bool, s': Service, response: Response)
    requires req.key in s.indexes
  {
    && Inv(w, s') && req.key in s'.indexes && NoNewFull(s, s')
    && (response.Accepted? ==>
          && response.baseReused == reused
          && IdsOf(s'.indexes[req.key].documents) == IdsOf(s.indexes[req.key].documents) + UploadIds(req.documents)
          && s'.indexes[req.key].ready == (s.indexes[req.key].ready || req.finalize))
    && (forall k :: k in s.indexes && k != req.key ==> k in s'.indexes && s'.indexes[k] == s.indexes[k])
  }

  lemma CommitSettles(w: World, s: Service, req: Request, prepared: seq<Prepared>, reused: bool)
    requires Sane(w) && Inv(w, s) && HonestRequest(w, req) && req.key in s.indexes
    requires PreparedFrom(w, s.vectors, req.model, prepared, req.documents)
    requires reused ==> req.replace && req.base != "" && IndexKey(req.key.profile, req.base) in s.indexes
    ensures Settled(w, s, req, reused, Commit(w.env, s, req, prepared, reused), AcceptedBy(w.env, s, req, prepared, reused))
  {
    CommitKeepsInv(w, s, req, prepared, reused);
  }

  lemma SettleKeepsInv(w: World, s: Service, req: Request, reused: bool, embeds: bool)
    requires Sane(w) && Inv(w, s) && HonestRequest(w, req) && req.key in s.indexes
    requires reused ==> req.replace && req.base != "" && IndexKey(req.key.profile, req.base) in s.indexes
    ensures var (s', response) := Settle(w.env, s, req, reused, embeds);
            Settled(w, s, req, reused, s', response) && (response.Raised? ==> !embeds)
  {
    PrepareIsTrue(w, s.vectors, req.key, req.documents);
    var (vectors, prepared) := Prepare(w.env, s.vectors, req.model, req.documents);
    KeepsInv(w, s, vectors);
    CommitSettles(w, s.(vectors := vectors), req, prepared.value, reused);
  }

  lemma UpsertKeepsInv(w: World, s: Service, req: Request, embeds: bool)
    requires Sane(w) && Inv(w, s) && HonestRequest(w, req)
    ensures var (s', response) := Upsert(w.env, s, req, embeds);
            Effect(w, s, req, s', response) && (response.Raised? ==> !embeds)
  {
    assert req.model != "";
    BeginKeepsInv(w, s, req);
    var (s1, reused) := Begin(w.env, s, req);
    SettleKeepsInv(w, Remove(s1, req), req, reused, embeds);
  }
}
