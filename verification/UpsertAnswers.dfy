/**
 What the answer to a request counts.  The service counts documents it had to embed and documents whose
 vectors it had; said here by what could be found on disk before the request came.
 */
module UpsertAnswers {
  import opened Prelude
  import opened IndexStore
  import opened Upserts
  import opened Protocol
  import V = VectorCaches

  // ----- lookups leave the files alone -----

  lemma {:induction false} RebuildLeavesFiles(shardOf: string -> string, vectors: V.Store, model: string, meta: seq<Meta>)
    requires V.Coherent(vectors)
    ensures var vectors' := Rebuild(shardOf, vectors, model, meta).0; V.Coherent(vectors') && V.SameFiles(vectors, vectors')
  {
    if meta != [] {
      var n := |meta| - 1;
      RebuildLeavesFiles(shardOf, vectors, model, meta[..n]);
      V.GetLeavesFiles(shardOf, Rebuild(shardOf, vectors, model, meta[..n]).0, (model, meta[n].fingerprint));
    }
  }

  lemma GetIndexLeavesFiles(shardOf: string -> string, s: Service, key: IndexKey)
    requires V.Coherent(s.vectors)
    ensures var vectors' := GetIndex(shardOf, s, key).0.vectors; V.Coherent(vectors') && V.SameFiles(s.vectors, vectors')
  {
    var files1 := LoadCache(s.files, key, {}).0;
    var status := LoadStatus(files1, key, {}).1;
    if status.Some? {
      RebuildLeavesFiles(shardOf, s.vectors, status.value.model, status.value.meta);
    }
  }

  lemma BeginLeavesFiles(env: Env, s: Service, req: Request)
    requires V.Coherent(s.vectors)
    ensures var s1 := Begin(env, s, req).0;
            req.key in s1.indexes && V.Coherent(s1.vectors) && V.SameFiles(s.vectors, s1.vectors)
  {
    GetIndexLeavesFiles(env.shardOf, s, IndexKey(req.key.profile, req.base));
  }

  // ----- which documents are found -----

  /** The vector of the document could be found. */
  ghost predicate Had(w: World, vectors: V.Store, profile: string, u: Upload) {
    Found(w, vectors, VectorKeyOf(w, profile, u.id))
  }

  lemma LookUpTells(w: World, vectors: V.Store, key: IndexKey, u: Upload)
    requires Sane(w) && Served(w, vectors) && HonestUpload(w, key, u)
    ensures var (vectors', found) := V.Get(w.env.shardOf, vectors, (w.modelOf(key.profile), Fingerprint(w.env, u)));
            && Served(w, vectors') && V.SameFiles(vectors, vectors')
            && (found.Some? <==> Had(w, vectors, key.profile, u))
            && (found.Some? ==> found.value.textHash == w.env.hash(u.text))
  {
    HonestFingerprint(w, key, u);
    LookUpIsTrue(w, vectors, key, u);
    GetServes(w, vectors, (w.modelOf(key.profile), Fingerprint(w.env, u)));
    V.GetLeavesFiles(w.env.shardOf, vectors, (w.modelOf(key.profile), Fingerprint(w.env, u)));
  }

  ghost predicate Told(w: World, vectors: V.Store, profile: string, prepared: seq<Prepared>, uploads: seq<Upload>) {
    |prepared| == |uploads| && forall i :: 0 <= i < |uploads| ==> (prepared[i].cached.Some? <==> Had(w, vectors, profile, uploads[i]))
  }

  lemma ToldOneMore(w: World, vectors: V.Store, profile: string, front: seq<Prepared>, last: Prepared, uploads: seq<Upload>)
    requires uploads != [] && Told(w, vectors, profile, front, uploads[..|uploads| - 1])
    requires last.cached.Some? <==> Had(w, vectors, profile, uploads[|uploads| - 1])
    ensures Told(w, vectors, profile, front + [last], uploads)
  {
    forall i | 0 <= i < |front| ensures uploads[..|uploads| - 1][i] == uploads[i] {
    }
  }

  /** A document is taken as cached exactly when its vector could be found before any of them was looked up. */
  lemma {:induction false} PrepareTells(w: World, vectors: V.Store, key: IndexKey, uploads: seq<Upload>)
    requires Sane(w) && Served(w, vectors) && forall u <- uploads :: HonestUpload(w, key, u)
    ensures var (vectors', prepared) := Prepare(w.env, vectors, w.modelOf(key.profile), uploads);
            && Served(w, vectors') && V.SameFiles(vectors, vectors')
            && prepared.Some? && Told(w, vectors, key.profile, prepared.value, uploads)
  {
    if uploads != [] {
      var n, model := |uploads| - 1, w.modelOf(key.profile);
      assert forall u <- uploads[..n] :: u in uploads;
      assert HonestUpload(w, key, uploads[n]);
      PrepareTells(w, vectors, key, uploads[..n]);
      var (vectors1, front) := Prepare(w.env, vectors, model, uploads[..n]);
      LookUpTells(w, vectors1, key, uploads[n]);
      SameFilesFind(w, vectors, vectors1);
      var prepared := Prepare(w.env, vectors, model, uploads).1.value;
      assert prepared == front.value + [prepared[n]];
      ToldOneMore(w, vectors, key.profile, front.value, prepared[n], uploads);
    }
  }

  lemma {:induction false} MissingCounts(prepared: seq<Prepared>)
    ensures |Missing(prepared)| == |set i: nat | i < |prepared| && prepared[i].cached.None?|
  {
    if prepared == [] {
      assert (set i: nat | i < |prepared| && prepared[i].cached.None?) == {};
    } else {
      var n := |prepared| - 1;
      MissingCounts(prepared[..n]);
      var before := set i: nat | i < |prepared[..n]| && prepared[..n][i].cached.None?;
      assert (set i: nat | i < |prepared| && prepared[i].cached.None?) == before + if prepared[n].cached.None? then {n} else {};
    }
  }

  /** The positions of documents whose vectors could, or could not, be found in a state. */
  ghost function HadAt(w: World, vectors: V.Store, profile: string, uploads: seq<Upload>): set<nat> {
    set i: nat | i < |uploads| && Had(w, vectors, profile, uploads[i])
  }

  ghost function LackedAt(w: World, vectors: V.Store, profile: string, uploads: seq<Upload>): set<nat> {
    set i: nat | i < |uploads| && !Had(w, vectors, profile, uploads[i])
  }

  lemma OneMoreHadOrLacked(w: World, vectors: V.Store, profile: string, uploads: seq<Upload>)
    requires uploads != []
    ensures var n := |uploads| - 1;
            var had := Had(w, vectors, profile, uploads[n]);
            && HadAt(w, vectors, profile, uploads) == HadAt(w, vectors, profile, uploads[..n]) + (if had then {n} else {})
            && LackedAt(w, vectors, profile, uploads) == LackedAt(w, vectors, profile, uploads[..n]) + (if had then {} else {n})
            && n !in HadAt(w, vectors, profile, uploads[..n]) && n !in LackedAt(w, vectors, profile, uploads[..n])
  {
  }

  lemma {:induction false} EachIsHadOrLacked(w: World, vectors: V.Store, profile: string, uploads: seq<Upload>)
    ensures |HadAt(w, vectors, profile, uploads)| + |LackedAt(w, vectors, profile, uploads)| == |uploads|
  {
    if uploads == [] {
      assert HadAt(w, vectors, profile, uploads) == {} && LackedAt(w, vectors, profile, uploads) == {};
    } else {
      EachIsHadOrLacked(w, vectors, profile, uploads[..|uploads| - 1]);
      OneMoreHadOrLacked(w, vectors, profile, uploads);
    }
  }

  lemma SameFilesSameCounts(w: World, vectors: V.Store, vectors': V.Store, profile: string, uploads: seq<Upload>)
    requires V.Coherent(vectors) && V.Coherent(vectors') && V.SameFiles(vectors, vectors')
    ensures HadAt(w, vectors', profile, uploads) == HadAt(w, vectors, profile, uploads)
    ensures LackedAt(w, vectors', profile, uploads) == LackedAt(w, vectors, profile, uploads)
  {
    SameFilesFind(w, vectors, vectors');
  }

  // ----- what is counted -----

  lemma PreparedCounts(w: World, vectors: V.Store, profile: string, prepared: seq<Prepared>, uploads: seq<Upload>)
    requires Told(w, vectors, profile, prepared, uploads)
    ensures |Missing(prepared)| == |LackedAt(w, vectors, profile, uploads)|
    ensures |prepared| - |Missing(prepared)| == |HadAt(w, vectors, profile, uploads)|
    ensures Missing(prepared) == [] <==> LackedAt(w, vectors, profile, uploads) == {}
  {
    MissingCounts(prepared);
    assert (set i: nat | i < |prepared| && prepared[i].cached.None?) == LackedAt(w, vectors, profile, uploads);
    EachIsHadOrLacked(w, vectors, profile, uploads);
  }

  /** The answer counts what was found; the total is that of the record the request leaves. */
  ghost predicate Counted(w: World, s: Service, req: Request, embeds: bool, s': Service, response: Response) {
    var profile, uploads := req.key.profile, req.documents;
    && (response.Raised? <==> LackedAt(w, s.vectors, profile, uploads) != {} && !embeds)
    && (response.Accepted? ==>
          && response.embedded == |LackedAt(w, s.vectors, profile, uploads)| && response.reused == |HadAt(w, s.vectors, profile, uploads)|
          && req.key in s'.indexes && response.total == |s'.indexes[req.key].documents|)
  }

  lemma SettleCounts(w: World, s: Service, req: Request, reused: bool, embeds: bool)
    requires Sane(w) && Inv(w, s) && HonestRequest(w, req) && req.key in s.indexes
    requires reused ==> req.replace && req.base != "" && IndexKey(req.key.profile, req.base) in s.indexes
    ensures var (s', response) := Settle(w.env, s, req, reused, embeds); Counted(w, s, req, embeds, s', response)
  {
    PrepareTells(w, s.vectors, req.key, req.documents);
    PrepareIsTrue(w, s.vectors, req.key, req.documents);
    var (vectors, prepared) := Prepare(w.env, s.vectors, req.model, req.documents);
    PreparedCounts(w, s.vectors, req.key.profile, prepared.value, req.documents);
    KeepsInv(w, s, vectors);
    CommitTotal(w, s.(vectors := vectors), req, prepared.value, reused);
  }

  lemma CommitTotal(w: World, s: Service, req: Request, prepared: seq<Prepared>, reused: bool)
    requires Sane(w) && Inv(w, s) && HonestRequest(w, req) && req.key in s.indexes
    requires PreparedFrom(w, s.vectors, req.model, prepared, req.documents)
    requires reused ==> req.replace && req.base != "" && IndexKey(req.key.profile, req.base) in s.indexes
    ensures var s' := Commit(w.env, s, req, prepared, reused);
            req.key in s'.indexes && AcceptedBy(w.env, s, req, prepared, reused).total == |s'.indexes[req.key].documents|
  {
    CommitKeepsInv(w, s, req, prepared, reused);
  }

  /**
   What an honest request is answered in a reachable state: it raises exactly when some vector has to be
   computed and cannot be; otherwise it counts as embedded the documents whose vectors could not be found
   before it came, as reused those whose vectors could, and in total the ids the index then holds.
   */
  lemma AnswerCounts(w: World, s: Service, req: Request, embeds: bool)
    requires Sane(w) && Inv(w, s) && HonestRequest(w, req)
    ensures var response := Upsert(w.env, s, req, embeds).1;
            && (response.Raised? <==> LackedAt(w, s.vectors, req.key.profile, req.documents) != {} && !embeds)
            && (response.Accepted? ==>
                  && response.baseReused == ReusesBase(w, s, req)
                  && response.embedded == |LackedAt(w, s.vectors, req.key.profile, req.documents)| && response.reused == |HadAt(w, s.vectors, req.key.profile, req.documents)|
                  && response.total == |StartIds(w, s, req) - req.removed + UploadIds(req.documents)|)
  {
    BeginKeepsInv(w, s, req);
    BeginLeavesFiles(w.env, s, req);
    var (s1, reused) := Begin(w.env, s, req);
    SameFilesSameCounts(w, s.vectors, s1.vectors, req.key.profile, req.documents);
    SettleCounts(w, Remove(s1, req), req, reused, embeds);
    UpsertSettles(w.env, s, req, embeds);
    TotalIsIds(w, s, req, embeds);
  }

  lemma UpsertSettles(env: Env, s: Service, req: Request, embeds: bool)
    requires req.model != ""
    ensures var (s1, reused) := Begin(env, s, req); Upsert(env, s, req, embeds) == Settle(env, Remove(s1, req), req, reused, embeds)
  {
  }

  lemma TotalIsIds(w: World, s: Service, req: Request, embeds: bool)
    requires Sane(w) && Inv(w, s) && HonestRequest(w, req)
    ensures var (s', response) := Upsert(w.env, s, req, embeds);
            response.Accepted? ==>
              && req.key in s'.indexes && response.baseReused == ReusesBase(w, s, req)
              && |s'.indexes[req.key].documents| == |StartIds(w, s, req) - req.removed + UploadIds(req.documents)|
  {
    UpsertKeepsInv(w, s, req, embeds);
    var s' := Upsert(w.env, s, req, embeds).0;
    assert TrueRecord(w, s'.vectors, req.key, s'.indexes[req.key]);
    CountIsCardinality(s'.indexes[req.key].documents);
  }

  /** Sending the same documents again, under whatever index they belong to, embeds nothing. */
  lemma SentAgainNothingIsEmbedded(w: World, s: Service, req: Request, embeds: bool, again: Request, embeds': bool)
    requires Sane(w) && Inv(w, s) && HonestRequest(w, req) && Upsert(w.env, s, req, embeds).1.Accepted?
    requires HonestRequest(w, again) && again.key.profile == req.key.profile && again.documents == req.documents
    ensures var response := Upsert(w.env, Upsert(w.env, s, req, embeds).0, again, embeds').1;
            response.Accepted? && response.embedded == 0 && response.reused == |req.documents|
  {
    UpsertKeepsInv(w, s, req, embeds);
    var s' := Upsert(w.env, s, req, embeds).0;
    AnswerCounts(w, s', again, embeds');
    forall i | 0 <= i < |again.documents| ensures Had(w, s'.vectors, again.key.profile, again.documents[i]) {
      HeldIsHad(w, s', req.key, again.documents[i].id);
    }
    EachIsHadOrLacked(w, s'.vectors, again.key.profile, again.documents);
    assert LackedAt(w, s'.vectors, again.key.profile, again.documents) == {};
  }

  lemma HeldIsHad(w: World, s: Service, key: IndexKey, id: string)
    requires Inv(w, s) && key in s.indexes && id in IdsOf(s.indexes[key].documents)
    ensures Found(w, s.vectors, VectorKeyOf(w, key.profile, id))
  {
    var documents := s.indexes[key].documents;
    assert TrueRecord(w, s.vectors, key, s.indexes[key]);
    var i :| 0 <= i < |documents| && documents[i].id == id;
    assert TrueDocument(w, s.vectors, key, documents[i]);
  }

  // ----- clients that claim what is not so -----

  lemma TakenIsOfItsText(env: Env, model: string, found: Option<V.VectorRecord>, fingerprint: string, text: string)
    requires Injective(env.hash) && (found.Some? ==> V.TrueVector(env.hash, env.embed, (model, fingerprint), found.value))
    ensures found.Some? && found.value.textHash == env.hash(text) ==> found.value.vector == env.embed(model, text)
  {
  }

  /** What a document is filed under: the content hash its client gives or, without one, the digest of its text. */
  function Claimed(env: Env, u: Upload): string {
    if u.contentHash == "" then "sha256:" + env.hash(u.text) else u.contentHash
  }

  /**
   Whatever content hashes its clients claim: as long as each record kept is the vector of some text with
   the hash beside it, every document of a request gets the vector of its own text, under the hash claimed.
   */
  lemma {:induction false} EveryItemHasItsOwnVector(env: Env, vectors: V.Store, model: string, uploads: seq<Upload>)
    requires Injective(env.hash) && V.Every(vectors, (k, r) => V.TrueVector(env.hash, env.embed, k, r))
    ensures var (vectors', prepared) := Prepare(env, vectors, model, uploads);
            && V.Every(vectors', (k, r) => V.TrueVector(env.hash, env.embed, k, r))
            && (prepared.Some? ==>
                  && |prepared.value| == |uploads|
                  && forall i :: 0 <= i < |uploads| ==>
                       && Items(env, model, prepared.value)[i].id == uploads[i].id
                       && Items(env, model, prepared.value)[i].vector == env.embed(model, uploads[i].text)
                       && Items(env, model, prepared.value)[i].fingerprint == Claimed(env, uploads[i]))
  {
    if uploads != [] {
      var n := |uploads| - 1;
      EveryItemHasItsOwnVector(env, vectors, model, uploads[..n]);
      var (vectors1, front) := Prepare(env, vectors, model, uploads[..n]);
      if front.Some? && uploads[n].id != "" {
        var key := (model, Fingerprint(env, uploads[n]));
        V.GetKeepsEvery(env.shardOf, vectors1, key, (k, r) => V.TrueVector(env.hash, env.embed, k, r));
        var found := V.Get(env.shardOf, vectors1, key).1;
        TakenIsOfItsText(env, model, found, Fingerprint(env, uploads[n]), uploads[n].text);
        ItemsOneMore(env, model, uploads, front.value, Prepare(env, vectors, model, uploads).1.value);
      }
    }
  }

  lemma ItemsOneMore(env: Env, model: string, uploads: seq<Upload>, front: seq<Prepared>, prepared: seq<Prepared>)
    requires uploads != [] && |front| == |uploads| - 1 && |prepared| == |uploads| && prepared[..|front|] == front
    requires forall i :: 0 <= i < |front| ==>
               && Items(env, model, front)[i].id == uploads[..|front|][i].id
               && Items(env, model, front)[i].vector == env.embed(model, uploads[..|front|][i].text)
               && Items(env, model, front)[i].fingerprint == Claimed(env, uploads[..|front|][i])
    requires var last := ItemOf(env, model, prepared[|front|]);
             && last.id == uploads[|front|].id && last.vector == env.embed(model, uploads[|front|].text)
             && last.fingerprint == Claimed(env, uploads[|front|])
    ensures forall i :: 0 <= i < |uploads| ==>
              && Items(env, model, prepared)[i].id == uploads[i].id
              && Items(env, model, prepared)[i].vector == env.embed(model, uploads[i].text)
              && Items(env, model, prepared)[i].fingerprint == Claimed(env, uploads[i])
  {
    forall i | 0 <= i < |front|
      ensures Items(env, model, prepared)[i] == Items(env, model, front)[i] && uploads[..|front|][i] == uploads[i]
    {
      assert prepared[..|front|][i] == prepared[i];
    }
  }
}
