/**
 What a restart leaves of an index.  Memory is ahead of the status file whenever requests of several
 clients mix, so "ready" may not survive; when exactly it does is said here.
 */
module Durability {
  import opened Prelude
  import opened IndexStore
  import opened Upserts
  import opened Protocol
  import V = VectorCaches

  /** The files bring back the record in memory: a full file, where one is read, holds it, or else the status file lists it. */
  predicate Current(s: Service, key: IndexKey)
    requires key in s.indexes
  {
    if Loaded(s, key).Some? then Loaded(s, key).value == s.indexes[key] else OnFile(s, key)
  }

  predicate OnFile(s: Service, key: IndexKey)
    requires key in s.indexes
  {
    key in s.files.statuses && s.files.statuses[key] == StatusOf(s.indexes[key])
  }

  /** A restart brings back what memory holds exactly when that is current on disk and, unless a full file holds it, ready and not empty. */
  lemma RestartBringsBackIffCurrent(w: World, s: Service, key: IndexKey)
    requires Sane(w) && Inv(w, s) && key in s.indexes
    ensures GetIndex(w.env.shardOf, s.Restarted(), key).1 == Some(s.indexes[key])
            <==> Current(s, key) && (Loaded(s, key).Some? || (s.indexes[key].ready && s.indexes[key].documents != []))
  {
    var record := s.indexes[key];
    RestartKeepsInv(w, s);
    GetIndexAnswersHeld(w, s.Restarted(), key);
    assert Loaded(s.Restarted(), key) == Loaded(s, key);
    assert TrueRecord(w, s.vectors, key, record);
    StatusIsTrue(w, s.vectors, key, record);
    if key in s.files.statuses {
      assert TrueStatus(w, s.vectors, key, s.files.statuses[key]);
    }
  }

  // ----- what requests leave on disk -----

  /** The request leaves its base as it is, and is stored as a clone of it. */
  ghost predicate Clones(w: World, s: Service, req: Request) {
    ReusesBase(w, s, req) && req.removed == {} && req.documents == []
  }

  /** The status file a clone is given: that of its base or, without one, that of the base's record. */
  function CloneStatus(w: World, s: Service, base: IndexKey): Status
    requires base in s.files.statuses || Held(w, s, base).Some?
  {
    if base in s.files.statuses then s.files.statuses[base] else StatusOf(Held(w, s, base).value)
  }

  lemma CloneStatuses(w: World, s: Service, base: IndexKey, key: IndexKey)
    requires Sane(w) && Inv(w, s) && base in s.indexes && base != key
    ensures CloneCache(w.env.shardOf, s, base, key).0.files
            == s.files.(full := s.files.full - {key}, aliases := s.files.aliases[key := base],
                        statuses := s.files.statuses[key := CloneStatus(w, s, base)])
  {
    LoadStatusIsTrue(w, s.vectors, s.files, base);
    if base in s.files.statuses {
      var status := s.files.statuses[base];
      assert TrueStatus(w, s.vectors, base, status);
      var record := Reconstructed(w, base, status);
      StatusIsTrue(w, s.vectors, base, record);
      ListedKeepsMeta(status.meta, record.documents);
    }
  }

  /** What a clone will read from full files: what its base reads without coming back to the clone. */
  function CloneLoads(s: Service, key: IndexKey, base: IndexKey): Option<Record> {
    LoadCache(s.files, base, if base == key then {} else {key}).1
  }

  /** A name that has been seen on the way may change without the rest of the chain noticing. */
  lemma {:induction false} SeenMayChange(files: Files, files': Files, changed: IndexKey, key: IndexKey, seen: set<IndexKey>)
    requires changed in seen
    requires forall k :: k != changed ==>
      && (k in files'.full <==> k in files.full) && (k in files.full ==> files'.full[k] == files.full[k])
      && (k in files'.aliases <==> k in files.aliases) && (k in files.aliases ==> files'.aliases[k] == files.aliases[k])
    ensures LoadCache(files', key, seen).1 == LoadCache(files, key, seen).1
    decreases files.aliases.Keys - seen
  {
    if key !in seen && key !in files.full && key in files.aliases && files.aliases[key].fingerprint != "" {
      SeenMayChange(files, files', changed, files.aliases[key], seen + {key});
    }
  }

  lemma CloneReads(files: Files, files': Files, base: IndexKey, key: IndexKey, status: Status)
    requires base != key && base.fingerprint != ""
    requires files' == files.(full := files.full - {key}, aliases := files.aliases[key := base], statuses := files.statuses[key := status])
    ensures LoadCache(files', key, {}).1 == LoadCache(files, base, {key}).1
  {
    var none: set<IndexKey> := {};
    SeenMayChange(files, files', key, base, none + {key});
    assert none + {key} == {key};
    assert LoadCache(files', key, none).1 == LoadCache(files', base, none + {key}).1;
  }

  lemma WriteReadsNothing(files: Files, key: IndexKey, record: Record)
    requires CanReconstruct(record)
    ensures LoadCache(WriteCache(files, key, record), key, {}).1.None?
  {
  }

  /** The status files a request leaves when it ends with the record it has in memory, as a clone of its base or not. */
  ghost predicate FiledAs(w: World, s: Service, req: Request, clones: bool, s': Service) {
    var base := IndexKey(req.key.profile, req.base);
    && req.key in s'.indexes
    && if !req.finalize then s'.files.statuses == s.files.statuses
       else if !clones then
         s'.files.statuses == s.files.statuses[req.key := StatusOf(s'.indexes[req.key])] && Loaded(s', req.key).None?
       else
         && Loaded(s', req.key) == CloneLoads(s, req.key, base)
         && if base == req.key then s'.files.statuses == s.files.statuses
            else (base in s.files.statuses || Held(w, s, base).Some?) && s'.files.statuses == s.files.statuses[req.key := CloneStatus(w, s, base)]
  }

  lemma CloneIsFiled(w: World, s: Service, req: Request)
    requires Sane(w) && Inv(w, s) && HonestRequest(w, req) && req.key in s.indexes && req.finalize && req.removed == {}
    requires req.replace && req.base != "" && IndexKey(req.key.profile, req.base) in s.indexes
    ensures var (s', cloned) := CloneCache(w.env.shardOf, s, IndexKey(req.key.profile, req.base), req.key);
            cloned && FiledAs(w, s, req, true, s')
  {
    var base := IndexKey(req.key.profile, req.base);
    CloneKeepsInv(w, s, base, req.key);
    if base != req.key {
      CloneStatuses(w, s, base, req.key);
      CloneReads(s.files, CloneCache(w.env.shardOf, s, base, req.key).0.files, base, req.key, CloneStatus(w, s, base));
    }
  }

  lemma FinalizeStatuses(w: World, s: Service, req: Request, reused: bool)
    requires Sane(w) && Inv(w, s) && HonestRequest(w, req) && req.key in s.indexes && req.finalize
    requires reused ==> req.replace && req.base != "" && IndexKey(req.key.profile, req.base) in s.indexes
    ensures FiledAs(w, s, req, reused && req.removed == {} && req.documents == [], Finalize(w.env, s, req, reused))
  {
    if reused && req.removed == {} && req.documents == [] {
      CloneIsFiled(w, s, req);
    } else {
      assert TrueRecord(w, s.vectors, req.key, s.indexes[req.key]);
      StatusIsTrue(w, s.vectors, req.key, s.indexes[req.key]);
      WriteReadsNothing(s.files, req.key, s.indexes[req.key]);
    }
  }

  /** The status files an accepted request leaves. */
  ghost predicate Filed(w: World, s: Service, req: Request, s': Service) {
    FiledAs(w, s, req, Clones(w, s, req), s')
  }

  /** Before it is finalized, the record is laid over the one there, with the new vectors kept. */
  lemma CommittedInv(w: World, s: Service, req: Request, prepared: seq<Prepared>)
    requires Sane(w) && Inv(w, s) && HonestRequest(w, req) && req.key in s.indexes
    requires PreparedFrom(w, s.vectors, req.model, prepared, req.documents)
    ensures var vectors := V.Keep(w.env.shardOf, s.vectors, NewEntries(w.env, req.model, Missing(prepared)));
            Inv(w, s.(vectors := vectors, indexes := s.indexes[req.key := Overlay(w.env, s, req, prepared)]))
  {
    var vectors := V.Keep(w.env.shardOf, s.vectors, NewEntries(w.env, req.model, Missing(prepared)));
    var record := s.indexes[req.key];
    KeptItemsAreTrue(w, s.vectors, req.key, prepared, req.documents);
    KeepsInv(w, s, vectors);
    OverlayIsTrue(w, vectors, req.key, record, Items(w.env, req.model, prepared), record.ready || req.finalize);
    SetRecord(w, s.(vectors := vectors), req.key, Overlay(w.env, s, req, prepared));
  }

  lemma CommitStatuses(w: World, s: Service, req: Request, prepared: seq<Prepared>, reused: bool)
    requires Sane(w) && Inv(w, s) && HonestRequest(w, req) && req.key in s.indexes
    requires PreparedFrom(w, s.vectors, req.model, prepared, req.documents)
    requires reused ==> req.replace && req.base != "" && IndexKey(req.key.profile, req.base) in s.indexes
    ensures FiledAs(w, s, req, reused && req.removed == {} && req.documents == [], Commit(w.env, s, req, prepared, reused))
  {
    if req.finalize {
      CommittedInv(w, s, req, prepared);
      var vectors := V.Keep(w.env.shardOf, s.vectors, NewEntries(w.env, req.model, Missing(prepared)));
      var s1 := s.(vectors := vectors, indexes := s.indexes[req.key := Overlay(w.env, s, req, prepared)]);
      FinalizeStatuses(w, s1, req, reused);
    }
  }

  lemma SettleStatuses(w: World, s: Service, req: Request, reused: bool, embeds: bool)
    requires Sane(w) && Inv(w, s) && HonestRequest(w, req) && req.key in s.indexes
    requires reused ==> req.replace && req.base != "" && IndexKey(req.key.profile, req.base) in s.indexes
    ensures var (s', response) := Settle(w.env, s, req, reused, embeds);
            response.Accepted? ==> FiledAs(w, s, req, reused && req.removed == {} && req.documents == [], s')
  {
    PrepareIsTrue(w, s.vectors, req.key, req.documents);
    var (vectors, prepared) := Prepare(w.env, s.vectors, req.model, req.documents);
    KeepsInv(w, s, vectors);
    CommitStatuses(w, s.(vectors := vectors), req, prepared.value, reused);
  }

  lemma UpsertStatuses(w: World, s: Service, req: Request, embeds: bool)
    requires Sane(w) && Inv(w, s) && HonestRequest(w, req)
    ensures var (s', response) := Upsert(w.env, s, req, embeds); response.Accepted? ==> Filed(w, s, req, s')
  {
    assert req.model != "";
    BeginKeepsInv(w, s, req);
    var (s1, reused) := Begin(w.env, s, req);
    SettleStatuses(w, Remove(s1, req), req, reused, embeds);
    if Clones(w, s, req) {
      BeginReads(w, s, req);
    }
    FiledSinceStart(w, s, req, Remove(s1, req), reused, Upsert(w.env, s, req, embeds).0);
  }

  /** Having seen more on the way, and with dead aliases gone, a chain without a full file still has none. */
  lemma {:induction false} StillNothing(files: Files, files': Files, key: IndexKey, seen: set<IndexKey>, seen': set<IndexKey>)
    requires OnlyAliasesDropped(files, files') && seen <= seen' && LoadCache(files, key, seen).1.None?
    ensures LoadCache(files', key, seen').1.None?
    decreases files.aliases.Keys - seen
  {
    if key !in seen' && key !in files.full && key in files'.aliases && files.aliases[key].fingerprint != "" {
      StillNothing(files, files', files.aliases[key], seen + {key}, seen' + {key});
    }
  }

  /** Loading an index changes nothing for a later load of it. */
  lemma LoadedAgain(w: World, s: Service, key: IndexKey, seen: set<IndexKey>)
    requires Inv(w, s)
    ensures LoadCache(GetIndex(w.env.shardOf, s, key).0.files, key, seen).1 == LoadCache(s.files, key, seen).1
  {
    if key !in s.indexes {
      var (files1, r) := LoadCache(s.files, key, {});
      LoadCacheDropsOnlyAliases(s.files, key, {});
      ASuccessfulLoadDropsNothing(s.files, key, {});
      LoadIsTrue(w, s.vectors, s.files, key);
      LoadStatusIsTrue(w, s.vectors, files1, key);
      if r.None? {
        StillNothing(s.files, s.files, key, {}, seen);
        StillNothing(s.files, files1, key, {}, seen);
      }
    }
  }

  lemma BeginReads(w: World, s: Service, req: Request)
    requires Inv(w, s) && req.replace && req.base != ""
    ensures var base := IndexKey(req.key.profile, req.base);
            CloneLoads(Remove(Begin(w.env, s, req).0, req), req.key, base) == CloneLoads(s, req.key, base)
  {
    var base := IndexKey(req.key.profile, req.base);
    LoadedAgain(w, s, base, if base == req.key then {} else {req.key});
  }

  /** Files are read off the state before the request as they are read off the one in which its record stands. */
  lemma FiledSinceStart(w: World, s: Service, req: Request, s2: Service, reused: bool, s': Service)
    requires Begun(w, s, req, s2, reused)
    requires var base := IndexKey(req.key.profile, req.base); Clones(w, s, req) ==> CloneLoads(s2, req.key, base) == CloneLoads(s, req.key, base)
    ensures FiledAs(w, s2, req, reused && req.removed == {} && req.documents == [], s') ==> Filed(w, s, req, s')
  {
  }

  // ----- what a clone holds -----

  lemma {:induction false} PutAllFromNothing(documents: seq<Document>)
    requires UniqueIds(documents)
    ensures PutAll([], documents) == documents
  {
    if documents != [] {
      var n := |documents| - 1;
      PutAllFromNothing(documents[..n]);
      NewIdGoesToTheEnd(documents[..n], documents[n]);
      assert documents == documents[..n] + [documents[n]];
    }
  }

  lemma {:induction false} WithoutNothing(documents: seq<Document>)
    ensures Without(documents, {}) == documents
  {
    if documents != [] {
      WithoutNothing(documents[..|documents| - 1]);
    }
  }

  /** A request that clones leaves its base's record, documents in order, under its own name. */
  lemma CloneHoldsBase(w: World, s: Service, req: Request, embeds: bool)
    requires Sane(w) && Inv(w, s) && HonestRequest(w, req) && req.finalize && Clones(w, s, req)
    ensures var (s', response) := Upsert(w.env, s, req, embeds);
            && response.Accepted? && req.key in s'.indexes
            && s'.indexes[req.key] == Held(w, s, IndexKey(req.key.profile, req.base)).value
  {
    var base := IndexKey(req.key.profile, req.base);
    UpsertKeepsInv(w, s, req, embeds);
    GetIndexAnswersHeld(w, s, base);
    BeginKeepsInv(w, s, req);
    var held := Held(w, s, base).value;
    WithoutNothing(held.documents);
    PutAllFromNothing(held.documents);
    var (s1, reused) := Begin(w.env, s, req);
    var s2 := Remove(s1, req);
    assert s2.indexes[req.key] == Record(false, req.model, held.documents);
    CommitKeepsInv(w, s2, req, [], reused);
    assert Items(w.env, req.model, []) == [];
    assert Overlay(w.env, s2, req, []) == held;
    assert Upsert(w.env, s, req, embeds).0 == Commit(w.env, s2, req, [], reused);
  }

  /** A finalizing request that clones leaves its base's record. */
  ghost predicate CopiesBase(w: World, s: Service, req: Request, s': Service) {
    req.finalize && Clones(w, s, req) ==>
      req.key in s'.indexes && s'.indexes[req.key] == Held(w, s, IndexKey(req.key.profile, req.base)).value
  }

  // ----- what survives -----

  /** The status file of a base, if there is one, lists what the base holds. */
  ghost predicate BaseCurrent(w: World, s: Service, base: IndexKey)
    requires Held(w, s, base).Some?
  {
    base in s.files.statuses ==> s.files.statuses[base] == StatusOf(Held(w, s, base).value)
  }

  /**
   A clone of the base will come back: the full file it reads, if any, holds what the base holds; without
   one, the base's status file is current or, for an index that names itself as its base, there at all.
   */
  ghost predicate CloneSurvives(w: World, s: Service, key: IndexKey, base: IndexKey) {
    var loads := CloneLoads(s, key, base);
    && Held(w, s, base).Some?
    && if loads.Some? then loads == Held(w, s, base) else BaseCurrent(w, s, base) && (base == key ==> base in s.files.statuses)
  }

  /**
   An index that a request has just finalized comes back after a restart, documents in order, as long as
   it is not empty or in a full file: always if it was written, and if it was cloned exactly when a clone
   of its base survives.
   */
  lemma FinalizedSurvivesRestart(w: World, s: Service, req: Request, embeds: bool)
    requires Sane(w) && Inv(w, s) && HonestRequest(w, req) && req.finalize
    ensures var (s', response) := Upsert(w.env, s, req, embeds);
            response.Accepted? ==> req.key in s'.indexes && SurvivesRestart(w, s, req, s')
  {
    UpsertKeepsInv(w, s, req, embeds);
    UpsertStatuses(w, s, req, embeds);
    var (s', response) := Upsert(w.env, s, req, embeds);
    if response.Accepted? {
      if Clones(w, s, req) {
        CloneHoldsBase(w, s, req, embeds);
      }
      FiledSurvives(w, s, req, s');
    }
  }

  ghost predicate SurvivesRestart(w: World, s: Service, req: Request, s': Service)
    requires req.key in s'.indexes
  {
    var base := IndexKey(req.key.profile, req.base);
    GetIndex(w.env.shardOf, s'.Restarted(), req.key).1 == Some(s'.indexes[req.key])
    <==> (Clones(w, s, req) ==> CloneSurvives(w, s, req.key, base))
         && (s'.indexes[req.key].documents != [] || (Clones(w, s, req) && CloneLoads(s, req.key, base).Some?))
  }

  lemma FiledSurvives(w: World, s: Service, req: Request, s': Service)
    requires Sane(w) && Inv(w, s') && req.finalize && Filed(w, s, req, s') && CopiesBase(w, s, req, s') && s'.indexes[req.key].ready
    ensures SurvivesRestart(w, s, req, s')
  {
    RestartBringsBackIffCurrent(w, s', req.key);
    if Clones(w, s, req) {
      ClonedIsCurrent(w, s, req, s');
    }
  }

  lemma ClonedIsCurrent(w: World, s: Service, req: Request, s': Service)
    requires Filed(w, s, req, s') && CopiesBase(w, s, req, s') && req.finalize && Clones(w, s, req)
    ensures Current(s', req.key) <==> CloneSurvives(w, s, req.key, IndexKey(req.key.profile, req.base))
  {
  }

  /** The status file at a key says "ready" for so many documents. */
  predicate FiledReady(s: Service, key: IndexKey, documentCount: nat) {
    key in s.files.statuses && s.files.statuses[key].ready && s.files.statuses[key].documentCount == documentCount
  }

  /** Whatever memory says: after a restart "ready" is answered exactly for the count in the status file. */
  lemma ReadyAfterRestartIffFiled(w: World, s: Service, key: IndexKey, documentCount: nat)
    requires Inv(w, s)
    ensures IndexStatus(s.Restarted(), key, documentCount).1.ready <==> FiledReady(s, key, documentCount)
  {
    LoadStatusIsTrue(w, s.vectors, s.files, key);
  }

  /** And then the index can be read and is complete after the restart, unless a full file is read instead; otherwise it is not complete. */
  lemma CompleteAfterRestartIffFiled(w: World, s: Service, key: IndexKey)
    requires Sane(w) && Inv(w, s) && w.targetOf(key) != {}
    ensures var r := GetIndex(w.env.shardOf, s.Restarted(), key).1;
            (r.Some? && Complete(w, key, r.value))
            <==> if Loaded(s, key).Some? then Complete(w, key, Loaded(s, key).value) else FiledReady(s, key, |w.targetOf(key)|)
  {
    RestartKeepsInv(w, s);
    var s' := s.Restarted();
    assert Loaded(s', key) == Loaded(s, key);
    GetIndexAnswersHeld(w, s', key);
    if Loaded(s, key).None? {
      ReadyAfterRestartIffFiled(w, s, key, |w.targetOf(key)|);
      ReadyMeansComplete(w, s', key, |w.targetOf(key)|);
      if FiledReady(s, key, |w.targetOf(key)|) {
        ReadyIsReadable(w, s', key);
      }
    }
  }

  // ----- a full file in the way -----

  /** Two aliases on end that lead to a full file. */
  lemma ReadsThroughTwo(files: Files, clone: IndexKey, whole: IndexKey, small: IndexKey)
    requires clone != whole && clone != small && whole != small && whole.fingerprint != "" && small.fingerprint != ""
    requires clone !in files.full && whole !in files.full && files.aliases == map[clone := whole, whole := small]
    requires small in files.full && forall d <- files.full[small].documents :: Stored(d)
    ensures LoadCache(files, clone, {}) == (files, Some(files.full[small]))
  {
    var none: set<IndexKey> := {};
    assert LoadCache(files, small, none + {clone} + {whole}) == (files, Some(files.full[small]));
    assert LoadCache(files, whole, none + {clone}) == (files, Some(files.full[small]));
    assert LoadCache(files, clone, none) == (files, Some(files.full[small]));
  }

  /**
   How an older full file comes to be in the way: an index is cloned from one stored whole, which is then
   made a clone of a smaller one stored whole.  The first clone still lists all documents and answers
   "ready" for them, and what it reads is the smaller file.
   */
  lemma AFullFileShadowsAClone(shardOf: string -> string, s: Service, clone: IndexKey, whole: IndexKey, small: IndexKey, all: Record, part: Record)
    requires clone != whole && clone != small && whole != small && whole.fingerprint != "" && small.fingerprint != ""
    requires CanReconstruct(all) && CanReconstruct(part) && all.ready && |part.documents| < |all.documents|
    requires s.files == Files(map[whole := all, small := part], map[], map[whole := StatusOf(all), small := StatusOf(part)], map[])
    ensures var s1 := CloneCache(shardOf, s, whole, clone).0;
            var s2 := CloneCache(shardOf, s1, small, whole).0.Restarted();
            IndexStatus(s2, clone, |all.documents|).1.ready && GetIndex(shardOf, s2, clone).1 == Some(part)
  {
    CloneOfListed(shardOf, s, whole, clone, all);
    var s1 := CloneCache(shardOf, s, whole, clone).0;
    CloneOfListed(shardOf, s1, small, whole, part);
    var s2 := CloneCache(shardOf, s1, small, whole).0.Restarted();
    assert s2.files.aliases == map[clone := whole, whole := small];
    ReadsThroughTwo(s2.files, clone, whole, small);
  }

  // ----- a run after which "ready" does not survive -----

  function Batch(w: World, key: IndexKey, id: string, replace: bool, finalize: bool): Request {
    Request(key, w.modelOf(key.profile), [Upload(id, w.textOf(id), "")], {}, replace, finalize, "")
  }

  lemma BatchIsHonest(w: World, key: IndexKey, id: string, replace: bool, finalize: bool)
    requires id in w.targetOf(key)
    ensures HonestRequest(w, Batch(w, key, id, replace, finalize)) && UploadIds(Batch(w, key, id, replace, finalize).documents) == {id}
  {
  }

  /** A service that accepts every honest request, with the effects proved of `Upsert`. */
  ghost predicate Reliable(w: World, serve: Serve) {
    forall s, req :: Inv(w, s) && HonestRequest(w, req) ==>
      && Effect(w, s, req, serve(s, req).0, serve(s, req).1) && serve(s, req).1.Accepted?
      && Filed(w, s, req, serve(s, req).0) && CopiesBase(w, s, req, serve(s, req).0)
  }

  /** One more batch of one document, on top of what is there. */
  ghost predicate Added(w: World, s: Service, s': Service, key: IndexKey, id: string, replace: bool, finalize: bool) {
    && Inv(w, s') && key in s'.indexes && (!replace ==> key in s.indexes)
    && IdsOf(s'.indexes[key].documents) == (if replace then {} else IdsOf(s.indexes[key].documents)) + {id}
    && s'.indexes[key].ready == (finalize || (!replace && s.indexes[key].ready))
    && s'.files.statuses == if finalize then s.files.statuses[key := StatusOf(s'.indexes[key])] else s.files.statuses
  }

  lemma BatchAdds(w: World, serve: Serve, s: Service, key: IndexKey, id: string, replace: bool, finalize: bool)
    requires Reliable(w, serve) && Inv(w, s) && id in w.targetOf(key) && (!replace ==> key in s.indexes)
    ensures Added(w, s, serve(s, Batch(w, key, id, replace, finalize)).0, key, id, replace, finalize)
  {
    var req := Batch(w, key, id, replace, finalize);
    BatchIsHonest(w, key, id, replace, finalize);
    assert Effect(w, s, req, serve(s, req).0, serve(s, req).1);
  }

  lemma AnsweringIsReliable(w: World)
    requires Sane(w)
    ensures Reliable(w, Answering(w.env, true))
  {
    forall s, req | Inv(w, s) && HonestRequest(w, req)
      ensures var r := Answering(w.env, true)(s, req);
              Effect(w, s, req, r.0, r.1) && r.1.Accepted? && Filed(w, s, req, r.0) && CopiesBase(w, s, req, r.0)
    {
      UpsertKeepsInv(w, s, req, true);
      UpsertStatuses(w, s, req, true);
      if Clones(w, s, req) && req.finalize {
        CloneHoldsBase(w, s, req, true);
      }
    }
  }

  /**
   One client has sent its first, replacing batch; another's last batch then finalizes the part there
   is; the first one's second batch completes the index in memory.  It is ready now, and after a
   restart a part of it is.
   */
  lemma ReadyMayNotSurviveARestart(w: World, serve: Serve, s: Service, key: IndexKey, x: string, y: string, z: string)
    requires Reliable(w, serve) && Inv(w, s) && w.targetOf(key) == {x, y, z} && x != y && x != z && y != z
    ensures var s1 := serve(s, Batch(w, key, x, true, false)).0;
            var s2 := serve(s1, Batch(w, key, z, false, true)).0;
            var s3 := serve(s2, Batch(w, key, y, false, false)).0;
            && IndexStatus(s3, key, 3).1.ready
            && !IndexStatus(s3.Restarted(), key, 3).1.ready && IndexStatus(s3.Restarted(), key, 2).1.ready
  {
    BatchAdds(w, serve, s, key, x, true, false);
    var s1 := serve(s, Batch(w, key, x, true, false)).0;
    BatchAdds(w, serve, s1, key, z, false, true);
    var s2 := serve(s1, Batch(w, key, z, false, true)).0;
    BatchAdds(w, serve, s2, key, y, false, false);
    var s3 := serve(s2, Batch(w, key, y, false, false)).0;
    ThreeBatches(w, s, s1, s2, s3, key, x, y, z);
  }

  lemma ThreeBatches(w: World, s: Service, s1: Service, s2: Service, s3: Service, key: IndexKey, x: string, y: string, z: string)
    requires x != y && x != z && y != z
    requires Added(w, s, s1, key, x, true, false) && Added(w, s1, s2, key, z, false, true) && Added(w, s2, s3, key, y, false, false)
    ensures IndexStatus(s3, key, 3).1.ready
    ensures !IndexStatus(s3.Restarted(), key, 3).1.ready && IndexStatus(s3.Restarted(), key, 2).1.ready
  {
    TwoBatches(w, s, s1, s2, key, x, z);
    ThirdBatch(w, s2, s3, key, x, y, z);
    AheadOfItsFile(w, s2, s3, key, x, y, z);
  }

  lemma TwoBatches(w: World, s: Service, s1: Service, s2: Service, key: IndexKey, x: string, z: string)
    requires Added(w, s, s1, key, x, true, false) && Added(w, s1, s2, key, z, false, true)
    ensures Inv(w, s2) && key in s2.indexes && IdsOf(s2.indexes[key].documents) == {x, z} && s2.indexes[key].ready && OnFile(s2, key)
  {
    assert {} + {x} == {x} && {x} + {z} == {x, z};
  }

  lemma ThirdBatch(w: World, s2: Service, s3: Service, key: IndexKey, x: string, y: string, z: string)
    requires Added(w, s2, s3, key, y, false, false) && IdsOf(s2.indexes[key].documents) == {x, z} && s2.indexes[key].ready
    ensures Inv(w, s3) && key in s3.indexes && IdsOf(s3.indexes[key].documents) == {x, y, z} && s3.indexes[key].ready
    ensures s3.files.statuses == s2.files.statuses
  {
    assert {x, z} + {y} == {x, y, z};
  }

  lemma AheadOfItsFile(w: World, s2: Service, s3: Service, key: IndexKey, x: string, y: string, z: string)
    requires Inv(w, s2) && Inv(w, s3) && x != y && x != z && y != z && key in s2.indexes && key in s3.indexes
    requires IdsOf(s2.indexes[key].documents) == {x, z} && s2.indexes[key].ready && OnFile(s2, key)
    requires IdsOf(s3.indexes[key].documents) == {x, y, z} && s3.indexes[key].ready && s3.files.statuses == s2.files.statuses
    ensures IndexStatus(s3, key, 3).1.ready
    ensures !IndexStatus(s3.Restarted(), key, 3).1.ready && IndexStatus(s3.Restarted(), key, 2).1.ready
  {
    CountOf(w, s2, key, {x, z});
    CountOf(w, s3, key, {x, y, z});
    ThreeAndTwo(x, y, z);
    ReadyAfterRestartIffFiled(w, s3, key, 3);
    ReadyAfterRestartIffFiled(w, s3, key, 2);
  }

  lemma ThreeAndTwo(x: string, y: string, z: string)
    requires x != y && x != z && y != z
    ensures |{x, y, z}| == 3 && |{x, z}| == 2
  {
  }

  lemma CountOf(w: World, s: Service, key: IndexKey, ids: set<string>)
    requires Inv(w, s) && key in s.indexes && IdsOf(s.indexes[key].documents) == ids
    ensures |s.indexes[key].documents| == |ids|
  {
    assert TrueRecord(w, s.vectors, key, s.indexes[key]);
    CountIsCardinality(s.indexes[key].documents);
  }
}
