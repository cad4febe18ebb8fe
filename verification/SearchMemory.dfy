/**
 The search state a record in memory carries.  Preparing a search caches identifiers and rows in the
 record; a request drops them when it replaces the record and when it is accepted, but not when it
 removes documents and then raises.  When the cached state is that of the documents is said here for
 every run.
 */
module SearchMemory {
  import opened Prelude
  import opened IndexStore
  import opened Upserts
  import opened MatrixSearch
  import V = VectorCaches

  type SearchState = (seq<string>, Matrix)

  /** A service with the search states its records carry. */
  datatype Memory = Memory(service: Service, states: map<IndexKey, SearchState>)

  /** What preparing caches; a record without rows is prepared anew every time. */
  function Caching(states: map<IndexKey, SearchState>, key: IndexKey, documents: seq<Document>): map<IndexKey, SearchState> {
    if RowsOf(documents) == [] then states - {key} else states[key := (StoredIds(documents), RowsOf(documents))]
  }

  function Ask(env: Env, m: Memory, req: Request, embeds: bool): (Memory, Response) {
    var (s, response) := Upsert(env, m.service, req, embeds);
    var states :=
      if req.model == "" then m.states
      else if response.Raised? then if req.replace then m.states - {req.key} else m.states
      else if req.finalize && req.key in s.indexes then Caching(m.states, req.key, s.indexes[req.key].documents)
      else m.states - {req.key};
    (Memory(s, states), response)
  }

  /** A search of a ready record in memory uses what it carries and else caches it. */
  function SearchPrepares(m: Memory, key: IndexKey): Memory {
    if key in m.service.indexes && m.service.indexes[key].ready && key !in m.states then
      m.(states := Caching(m.states, key, m.service.indexes[key].documents))
    else m
  }

  datatype Event = Asks(request: Request, embeds: bool) | Loads(key: IndexKey) | Searches(key: IndexKey) | Restarts

  function After(env: Env, m: Memory, e: Event): Memory {
    match e
    case Asks(req, embeds) => Ask(env, m, req, embeds).0
    case Loads(key) => m.(service := GetIndex(env.shardOf, m.service, key).0)
    case Searches(key) => SearchPrepares(m, key)
    case Restarts => Memory(m.service.Restarted(), map[])
  }

  function Run(env: Env, m: Memory, events: seq<Event>): Memory {
    if events == [] then m else After(env, Run(env, m, events[..|events| - 1]), events[|events| - 1])
  }

  /** A search state cached for an index is that of its documents. */
  ghost predicate Fresh(m: Memory, key: IndexKey) {
    key in m.states ==>
      && key in m.service.indexes && RowsOf(m.service.indexes[key].documents) != []
      && m.states[key] == (StoredIds(m.service.indexes[key].documents), RowsOf(m.service.indexes[key].documents))
  }

  /** The cached state has more rows than the documents do. */
  ghost predicate Lags(m: Memory, key: IndexKey) {
    key in m.states && key in m.service.indexes && |RowsOf(m.service.indexes[key].documents)| < |m.states[key].1|
  }

  /** Some document with a row is among those removed. */
  ghost predicate TakesRow(documents: seq<Document>, removed: set<string>) {
    exists d :: d in documents && Stored(d) && d.id in removed
  }

  /** A request that removes a row of a record whose search state is cached, does not replace the record, and raises. */
  ghost predicate Spoils(env: Env, m: Memory, req: Request, embeds: bool) {
    && req.model != "" && !req.replace && Upsert(env, m.service, req, embeds).1.Raised?
    && req.key in m.states && req.key in m.service.indexes && TakesRow(m.service.indexes[req.key].documents, req.removed)
  }

  /** A record in memory with what it carries for searches. */
  class CachedRecord {
    var documents: seq<Document>
    var searchIds: Option<seq<string>>
    var searchMatrix: Option<Matrix>

    ghost function Carried(): Option<SearchState>
      reads this
    {
      if searchIds.Some? && searchMatrix.Some? then Some((searchIds.value, searchMatrix.value)) else None
    }

    method InvalidateSearchState()
      modifies this`searchIds, this`searchMatrix
      ensures Carried() == None
    {
      searchIds, searchMatrix := None, None;
    }

    /** Answers with what is carried; without that, with the rows of the documents, which are carried from then on if there are any. */
    method PrepareSearchState() returns (identifiers: seq<string>, matrix: Option<Matrix>)
      modifies this`searchIds, this`searchMatrix
      ensures old(Carried()).Some? ==> Carried() == old(Carried()) == (if matrix.Some? then Some((identifiers, matrix.value)) else None)
      ensures old(Carried()).None? ==>
                && identifiers == StoredIds(documents)
                && matrix == (if RowsOf(documents) == [] then None else Some(RowsOf(documents)))
                && Carried() == (if matrix.Some? then Some((identifiers, matrix.value)) else None)
    {
      if searchIds.Some? && searchMatrix.Some? {
        return searchIds.value, searchMatrix;
      }
      var rows;
      identifiers, rows := SearchRows(documents);
      matrix := if rows == [] then None else Some(rows);
      searchIds, searchMatrix := Some(identifiers), matrix;
    }
  }

  // ----- removing rows -----

  lemma {:induction false} RowsWithout(documents: seq<Document>, removed: set<string>)
    ensures |RowsOf(Without(documents, removed))| <= |RowsOf(documents)|
    ensures TakesRow(documents, removed) ==> |RowsOf(Without(documents, removed))| < |RowsOf(documents)|
    ensures !TakesRow(documents, removed) ==>
              RowsOf(Without(documents, removed)) == RowsOf(documents) && StoredIds(Without(documents, removed)) == StoredIds(documents)
  {
    if documents != [] {
      var front, last := documents[..|documents| - 1], documents[|documents| - 1];
      RowsWithout(front, removed);
      assert documents == front + [last];
      assert TakesRow(documents, removed) <==> TakesRow(front, removed) || (Stored(last) && last.id in removed);
      if last.id !in removed {
        assert (Without(front, removed) + [last])[..|Without(front, removed)|] == Without(front, removed);
      }
    }
  }

  // ----- what a request does to the records -----

  ghost predicate Extends(s: Service, s': Service) {
    forall k :: k in s.indexes ==> k in s'.indexes && s'.indexes[k] == s.indexes[k]
  }

  lemma GetIndexExtends(shardOf: string -> string, s: Service, key: IndexKey)
    ensures Extends(s, GetIndex(shardOf, s, key).0)
  {
  }

  lemma CloneExtends(shardOf: string -> string, s: Service, source: IndexKey, target: IndexKey)
    ensures Extends(s, CloneCache(shardOf, s, source, target).0)
  {
    GetIndexExtends(shardOf, s.(files := LoadStatus(s.files, source, {}).0), source);
  }

  ghost predicate ExtendsBut(s: Service, s': Service, key: IndexKey) {
    forall k :: k in s.indexes && k != key ==> k in s'.indexes && s'.indexes[k] == s.indexes[k]
  }

  lemma BeginExtends(env: Env, s: Service, req: Request)
    ensures var s1 := Begin(env, s, req).0; req.key in s1.indexes && ExtendsBut(s, s1, req.key)
  {
    GetIndexExtends(env.shardOf, s, IndexKey(req.key.profile, req.base));
  }

  lemma SettleExtends(env: Env, s: Service, req: Request, reused: bool, embeds: bool)
    requires req.key in s.indexes
    ensures var (s', response) := Settle(env, s, req, reused, embeds);
            && ExtendsBut(s, s', req.key) && req.key in s'.indexes
            && (response.Raised? ==> s'.indexes == s.indexes)
  {
    var (vectors, prepared) := Prepare(env, s.vectors, req.model, req.documents);
    var s1 := s.(vectors := vectors);
    if prepared.Some? && (Missing(prepared.value) == [] || embeds) && req.finalize {
      var record := Overlay(env, s1, req, prepared.value);
      var s2 := s1.(vectors := V.Keep(env.shardOf, s1.vectors, NewEntries(env, req.model, Missing(prepared.value))),
                    indexes := s1.indexes[req.key := record]);
      CloneExtends(env.shardOf, s2, IndexKey(req.key.profile, req.base), req.key);
    }
  }

  /** Other records stay as they are; a request that raises leaves its own less the removals. */
  lemma UpsertExtends(env: Env, s: Service, req: Request, embeds: bool)
    ensures var (s', response) := Upsert(env, s, req, embeds);
            && ExtendsBut(s, s', req.key) && (req.model != "" ==> req.key in s'.indexes)
            && (response.Raised? && req.model != "" && !req.replace && req.key in s.indexes ==>
                  s'.indexes[req.key].documents == Without(s.indexes[req.key].documents, req.removed))
  {
    if req.model != "" {
      var (s1, reused) := Begin(env, s, req);
      BeginExtends(env, s, req);
      SettleExtends(env, Remove(s1, req), req, reused, embeds);
    }
  }

  // ----- when the cached state is that of the documents -----

  /**
   A request leaves the cached state of its index that of the documents exactly when it is not one that
   takes a row out and then raises.
   */
  lemma FreshAfterRequestIffNotSpoilt(env: Env, m: Memory, req: Request, embeds: bool)
    requires Fresh(m, req.key)
    ensures var m' := Ask(env, m, req, embeds).0;
            && (Fresh(m', req.key) <==> !Spoils(env, m, req, embeds))
            && (!Fresh(m', req.key) ==> Lags(m', req.key))
  {
    UpsertExtends(env, m.service, req, embeds);
    if req.key in m.service.indexes {
      RowsWithout(m.service.indexes[req.key].documents, req.removed);
    }
  }

  /** Whatever was cached: a request that is accepted or replaces the record leaves it fresh, and a lagging state else stays lagging. */
  lemma RequestRepairs(env: Env, m: Memory, req: Request, embeds: bool)
    requires req.model != ""
    ensures var (m', response) := Ask(env, m, req, embeds);
            && (response.Accepted? || req.replace ==> Fresh(m', req.key))
            && (response.Raised? && !req.replace && Lags(m, req.key) ==> Lags(m', req.key))
  {
    UpsertExtends(env, m.service, req, embeds);
    if req.key in m.service.indexes {
      RowsWithout(m.service.indexes[req.key].documents, req.removed);
    }
  }

  lemma OthersKeepState(env: Env, m: Memory, e: Event, key: IndexKey)
    requires e.Asks? ==> e.request.key != key
    requires !e.Restarts?
    ensures var m' := After(env, m, e); (Fresh(m, key) ==> Fresh(m', key)) && (Lags(m, key) ==> Lags(m', key))
  {
    match e
    case Asks(req, embeds) => UpsertExtends(env, m.service, req, embeds);
    case Loads(k) => GetIndexExtends(env.shardOf, m.service, k);
    case Searches(k) =>
  }

  /** Since the last accepted or replacing request for the index and the last restart, one took a row out of it and raised. */
  ghost predicate Spoilt(env: Env, m: Memory, events: seq<Event>, key: IndexKey) {
    if events == [] then false
    else
      var front, e := events[..|events| - 1], events[|events| - 1];
      if e.Restarts? then false
      else if e.Asks? && e.request.key == key && e.request.model != ""
              && (e.request.replace || Ask(env, Run(env, m, front), e.request, e.embeds).1.Accepted?) then false
      else Spoilt(env, m, front, key) || (e.Asks? && e.request.key == key && Spoils(env, Run(env, m, front), e.request, e.embeds))
  }

  /** Over every run of requests, searches, loads and restarts, the cached state is that of the documents exactly when it has not been spoilt. */
  lemma {:induction false} FreshIffNotSpoilt(env: Env, m: Memory, events: seq<Event>, key: IndexKey)
    requires Fresh(m, key)
    ensures Fresh(Run(env, m, events), key) <==> !Spoilt(env, m, events, key)
    ensures Spoilt(env, m, events, key) ==> Lags(Run(env, m, events), key)
  {
    if events != [] {
      var front, e := events[..|events| - 1], events[|events| - 1];
      FreshIffNotSpoilt(env, m, front, key);
      var before := Run(env, m, front);
      LagsIsNotFresh(before, key);
      LagsIsNotFresh(After(env, before, e), key);
      if e.Asks? && e.request.key == key {
        RequestStep(env, before, e.request, e.embeds);
      } else if !e.Restarts? {
        OthersKeepState(env, before, e, key);
      }
    }
  }

  lemma LagsIsNotFresh(m: Memory, key: IndexKey)
    ensures Lags(m, key) ==> !Fresh(m, key)
  {
  }

  lemma RequestStep(env: Env, m: Memory, req: Request, embeds: bool)
    requires Fresh(m, req.key) || Lags(m, req.key)
    ensures var (m', response) := Ask(env, m, req, embeds);
            if req.model != "" && (req.replace || response.Accepted?) then Fresh(m', req.key)
            else if Lags(m, req.key) || Spoils(env, m, req, embeds) then Lags(m', req.key)
            else Fresh(m', req.key)
  {
    if req.model != "" {
      RequestRepairs(env, m, req, embeds);
      if Fresh(m, req.key) {
        FreshAfterRequestIffNotSpoilt(env, m, req, embeds);
      }
    }
  }

  /** Only finalized records carry search states. */
  ghost predicate CarriedAreReady(m: Memory) {
    forall key <- m.states :: key in m.service.indexes && m.service.indexes[key].ready
  }

  lemma AcceptedIsReady(env: Env, s: Service, req: Request, embeds: bool)
    ensures var (s', response) := Upsert(env, s, req, embeds);
            && (response.Accepted? && req.finalize && req.key in s'.indexes ==> s'.indexes[req.key].ready)
            && (response.Raised? && !req.replace && req.key in s.indexes ==> req.key in s'.indexes && s'.indexes[req.key].ready == s.indexes[req.key].ready)
  {
    if req.model != "" {
      var (s1, reused) := Begin(env, s, req);
      BeginExtends(env, s, req);
      SettledIsReady(env, Remove(s1, req), req, reused, embeds);
    }
  }

  lemma SettledIsReady(env: Env, s: Service, req: Request, reused: bool, embeds: bool)
    requires req.key in s.indexes
    ensures var (s', response) := Settle(env, s, req, reused, embeds);
            && req.key in s'.indexes
            && (response.Accepted? && req.finalize ==> s'.indexes[req.key].ready)
            && (response.Raised? ==> s'.indexes == s.indexes)
  {
    var (vectors, prepared) := Prepare(env, s.vectors, req.model, req.documents);
    var s1 := s.(vectors := vectors);
    if prepared.Some? && (Missing(prepared.value) == [] || embeds) && req.finalize {
      var s2 := s1.(vectors := V.Keep(env.shardOf, s1.vectors, NewEntries(env, req.model, Missing(prepared.value))),
                    indexes := s1.indexes[req.key := Overlay(env, s1, req, prepared.value)]);
      CloneExtends(env.shardOf, s2, IndexKey(req.key.profile, req.base), req.key);
    }
  }

  lemma StepKeepsReady(env: Env, m: Memory, e: Event)
    requires CarriedAreReady(m)
    ensures CarriedAreReady(After(env, m, e))
  {
    match e
    case Asks(req, embeds) =>
      UpsertExtends(env, m.service, req, embeds);
      AcceptedIsReady(env, m.service, req, embeds);
    case Loads(k) => GetIndexExtends(env.shardOf, m.service, k);
    case Searches(k) =>
    case Restarts =>
  }

  /** Over every run: an index that is not finalized is never prepared for searching. */
  lemma {:induction false} RunKeepsReady(env: Env, m: Memory, events: seq<Event>)
    requires CarriedAreReady(m)
    ensures CarriedAreReady(Run(env, m, events))
  {
    if events != [] {
      RunKeepsReady(env, m, events[..|events| - 1]);
      StepKeepsReady(env, Run(env, m, events[..|events| - 1]), events[|events| - 1]);
    }
  }

  // ----- what searches answer -----

  /** The search of a ready record in memory: over what it carries or, without that, over its documents. */
  function SearchInMemory(m: Memory, key: IndexKey, query: seq<real>, limit: nat, partition: (seq<real>, nat) -> seq<nat>): Option<seq<Hit>>
    requires key in m.service.indexes
  {
    var documents := m.service.indexes[key].documents;
    if key in m.states then Search(m.states[key].0, m.states[key].1, query, limit, partition)
    else Search(StoredIds(documents), RowsOf(documents), query, limit, partition)
  }

  lemma StoredAreListed(documents: seq<Document>)
    ensures |StoredIds(documents)| == |RowsOf(documents)|
    ensures forall d :: d in documents && Stored(d) ==> d.id in StoredIds(documents)
  {
    var places := StoredSideBySide(documents);
    forall d | d in documents && Stored(d) ensures d.id in StoredIds(documents) {
      var p: nat :| p < |documents| && documents[p] == d;
      var i :| 0 <= i < |places| && places[i] == p;
    }
  }

  /** While the state is fresh, a search refines the plain search over the documents that have an id and a vector. */
  lemma FreshSearchRefinesPlainSearch(m: Memory, key: IndexKey, query: seq<real>, limit: nat, partition: (seq<real>, nat) -> seq<nat>)
    requires key in m.service.indexes && Fresh(m, key) && Partitioner(partition)
    ensures var documents := m.service.indexes[key].documents;
            var ids, rows := StoredIds(documents), RowsOf(documents);
            var fast := SearchInMemory(m, key, query, limit, partition);
            && |ids| == |rows| && (fast.Some? <==> PlainSearch(ids, rows, query, limit).Some?)
            && (fast.Some? ==> FirstOf(HitsOf(ids, rows, query), Min(limit, |ids|), fast.value))
  {
    var documents := m.service.indexes[key].documents;
    StoredAreListed(documents);
    MatrixSearchRefinesPlainSearch(StoredIds(documents), RowsOf(documents), query, limit, partition);
  }

  /** A search for all rows reports every identifier. */
  lemma AllAreReported(ids: seq<string>, rows: Matrix, query: seq<real>, partition: (seq<real>, nat) -> seq<nat>, id: string)
    requires |ids| == |rows| && Fits(rows, query) && Partitioner(partition) && id in ids
    ensures var fast := Search(ids, rows, query, |ids|, partition); fast.Some? && exists hit :: hit in fast.value && hit.id == id
  {
    AllHits(ids, rows, query, partition);
    var i :| 0 <= i < |ids| && ids[i] == id;
    AllHitsAreThere(ids, rows, query, i);
  }

  /**
   The way it goes wrong: a document is removed by a request that raises because its embeddings could not
   be made; the index no longer holds the document, and a search still reports it.
   */
  lemma ARemovedDocumentIsStillFound(env: Env, m: Memory, req: Request, embeds: bool, d: Document, query: seq<real>,
                                     partition: (seq<real>, nat) -> seq<nat>)
    requires Fresh(m, req.key) && Spoils(env, m, req, embeds) && Partitioner(partition) && Fits(m.states[req.key].1, query)
    requires d in m.service.indexes[req.key].documents && Stored(d) && d.id in req.removed
    ensures var m' := Ask(env, m, req, embeds).0;
            && req.key in m'.service.indexes && (forall e <- m'.service.indexes[req.key].documents :: e.id != d.id)
            && var hits := SearchInMemory(m', req.key, query, |m.states[req.key].0|, partition);
               hits.Some? && exists hit :: hit in hits.value && hit.id == d.id
  {
    var documents := m.service.indexes[req.key].documents;
    UpsertExtends(env, m.service, req, embeds);
    WithoutLosesThem(documents, req.removed);
    StoredAreListed(documents);
    AllAreReported(StoredIds(documents), RowsOf(documents), query, partition, d.id);
  }

  lemma {:induction false} WithoutLosesThem(documents: seq<Document>, removed: set<string>)
    ensures forall d <- Without(documents, removed) :: d.id !in removed
  {
    if documents != [] {
      WithoutLosesThem(documents[..|documents| - 1], removed);
    }
  }
}
