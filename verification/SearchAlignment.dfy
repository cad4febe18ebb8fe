/**
 Whether a search from files pairs identifiers with their own vectors.  An index without a matrix of
 its own reads the one its aliases lead to, so what is written under another name may change it: which
 steps keep an index aligned is said here for every step, exactly.
 */
module SearchAlignment {
  import opened Prelude
  import opened IndexStore
  import opened MatrixSearch
  import V = VectorCaches

  /** The vector every record of a key carries. */
  type VectorOf = V.VectorKey -> seq<real>

  function MatrixAt(files: Files, key: IndexKey): Option<Matrix> {
    LoadMatrix(files, key, {}).1
  }

  /** The rows that belong to the documents a status file lists. */
  function ListedRows(vectorOf: VectorOf, status: Status): Matrix {
    seq(|status.meta|, i requires 0 <= i < |status.meta| => vectorOf((status.model, status.meta[i].fingerprint)))
  }

  /** Every identifier has its entry with a fingerprint. */
  ghost predicate LinesUp(status: Status) {
    |status.identifiers| == |status.meta| && forall i :: 0 <= i < |status.meta| ==> status.identifiers[i] == status.meta[i].id
  }

  ghost predicate RightRows(vectorOf: VectorOf, status: Status, matrix: Option<Matrix>) {
    matrix.Some? ==> matrix.value == ListedRows(vectorOf, status)
  }

  /** The matrix the alias chain reaches, if any, has the rows of the documents the status file lists. */
  ghost predicate Aligned(vectorOf: VectorOf, files: Files, key: IndexKey) {
    && key in files.statuses && LinesUp(files.statuses[key])
    && RightRows(vectorOf, files.statuses[key], MatrixAt(files, key))
  }

  /** How that definition reads: a search from files starts with each identifier's own row, or not at all. */
  lemma SearchIsRightIffAligned(vectorOf: VectorOf, files: Files, key: IndexKey)
    requires key in files.statuses && LinesUp(files.statuses[key])
    requires files.statuses[key].ready && files.statuses[key].identifiers != []
    ensures var state := FileSearchState(files, key);
            (state.Some? ==> state.value == (files.statuses[key].identifiers, ListedRows(vectorOf, files.statuses[key])))
            <==> Aligned(vectorOf, files, key)
  {
  }

  // ----- what a query can tell -----

  function Unit(n: nat, j: nat): seq<real> {
    seq(n, i => if i == j then 1.0 else 0.0)
  }

  lemma {:induction false} DotZero(row: seq<real>, query: seq<real>)
    requires |row| == |query| && forall i :: 0 <= i < |query| ==> query[i] == 0.0
    ensures Dot(row, query) == 0.0
  {
    if row != [] {
      DotZero(row[..|row| - 1], query[..|row| - 1]);
    }
  }

  lemma {:induction false} DotUnit(row: seq<real>, j: nat)
    requires j < |row|
    ensures Dot(row, Unit(|row|, j)) == row[j]
  {
    var n := |row| - 1;
    if j == n {
      DotZero(row[..n], Unit(|row|, j)[..n]);
    } else {
      DotUnit(row[..n], j);
      assert Unit(|row|, j)[..n] == Unit(n, j);
    }
  }

  ghost predicate Wide(rows: Matrix, dimension: nat) {
    forall i :: 0 <= i < |rows| ==> |rows[i]| == dimension
  }

  ghost predicate Different(ids: seq<string>) {
    forall i, j :: 0 <= i < j < |ids| ==> ids[i] != ids[j]
  }

  lemma SameSortedSameHit(a: seq<Hit>, b: seq<Hit>, i: nat)
    requires |a| == |b| && i < |a| && Sort(a, Before) == Sort(b, Before)
    requires (forall k :: 0 <= k < |a| ==> a[k].id == b[k].id) && forall k :: 0 <= k < |b| && k != i ==> b[k].id != b[i].id
    ensures a[i] == b[i]
  {
    assert multiset(a) == multiset(b);
    var k := PlaceOf(b, a[i], a);
  }

  /** All hits of the plain search tell each identifier's score. */
  lemma SameHitsSameScore(ids: seq<string>, rows: Matrix, others: Matrix, query: seq<real>, i: nat)
    requires |ids| == |rows| == |others| && Different(ids) && Fits(rows, query) && Fits(others, query) && i < |ids|
    requires PlainSearch(ids, rows, query, |ids|) == PlainSearch(ids, others, query, |ids|)
    ensures Dot(rows[i], query) == Dot(others[i], query)
  {
    PlainOfAll(ids, rows, query);
    PlainOfAll(ids, others, query);
    SameSortedSameHit(HitsOf(ids, rows, query), HitsOf(ids, others, query), i);
  }

  lemma PlainOfAll(ids: seq<string>, rows: Matrix, query: seq<real>)
    requires |ids| == |rows| && Fits(rows, query)
    ensures PlainSearch(ids, rows, query, |ids|) == Some(Sort(HitsOf(ids, rows, query), Before))
  {
    var sorted := Sort(HitsOf(ids, rows, query), Before);
    assert sorted[..|ids|] == sorted;
  }

  ghost predicate SameAnswer(ids: seq<string>, rows: Matrix, others: Matrix, query: seq<real>)
    requires |ids| == |rows| == |others|
  {
    PlainSearch(ids, rows, query, |ids|) == PlainSearch(ids, others, query, |ids|)
  }

  lemma SameEntry(ids: seq<string>, rows: Matrix, others: Matrix, dimension: nat, i: nat, j: nat)
    requires |ids| == |rows| == |others| && Different(ids) && Wide(rows, dimension) && Wide(others, dimension)
    requires i < |ids| && j < dimension && SameAnswer(ids, rows, others, Unit(dimension, j))
    ensures rows[i][j] == others[i][j]
  {
    SameHitsSameScore(ids, rows, others, Unit(dimension, j), i);
    DotUnit(rows[i], j);
    DotUnit(others[i], j);
  }

  lemma SameSearchesSameRows(ids: seq<string>, rows: Matrix, others: Matrix, dimension: nat)
    requires |ids| == |rows| == |others| && Different(ids) && Wide(rows, dimension) && Wide(others, dimension)
    requires forall query :: |query| == dimension ==> SameAnswer(ids, rows, others, query)
    ensures rows == others
  {
    forall i | 0 <= i < |ids| ensures rows[i] == others[i] {
      forall j | 0 <= j < dimension ensures rows[i][j] == others[i][j] {
        SameEntry(ids, rows, others, dimension, i, j);
      }
    }
  }

  /**
   An index that reads a matrix of its dimension, with no more rows than it lists documents, is aligned
   exactly when no query for all documents is answered otherwise than by scoring the documents themselves.
   */
  lemma AlignedIffNoQueryTells(vectorOf: VectorOf, files: Files, key: IndexKey, dimension: nat, partition: (seq<real>, nat) -> seq<nat>)
    requires key in files.statuses && LinesUp(files.statuses[key]) && Different(files.statuses[key].identifiers) && Partitioner(partition)
    requires files.statuses[key].ready && files.statuses[key].identifiers != [] && Wide(ListedRows(vectorOf, files.statuses[key]), dimension)
    requires MatrixAt(files, key).Some?
    requires var rows := MatrixAt(files, key).value; |rows| <= |files.statuses[key].identifiers| && Wide(rows, dimension)
    ensures var ids, listed := files.statuses[key].identifiers, ListedRows(vectorOf, files.statuses[key]);
            Aligned(vectorOf, files, key)
            <==> forall query :: |query| == dimension ==>
                   FileSearch(files, key, query, |ids|, partition) == PlainSearch(ids, listed, query, |ids|)
  {
    var ids, listed, rows := files.statuses[key].identifiers, ListedRows(vectorOf, files.statuses[key]), MatrixAt(files, key).value;
    forall query | |query| == dimension
      ensures FileSearch(files, key, query, |ids|, partition) == if |rows| == |ids| then PlainSearch(ids, rows, query, |ids|) else None
    {
      AllHits(ids, rows, query, partition);
    }
    if forall query :: |query| == dimension ==> FileSearch(files, key, query, |ids|, partition) == PlainSearch(ids, listed, query, |ids|) {
      assert PlainSearch(ids, listed, Unit(dimension, 0), |ids|).Some?;
      assert FileSearch(files, key, Unit(dimension, 0), |ids|, partition).Some?;
      SameSearchesSameRows(ids, rows, listed, dimension);
    }
  }

  // ----- chains of aliases -----

  /** Some hops along aliases of names without a matrix lead from one name to the other. */
  ghost predicate Leads(files: Files, key: IndexKey, other: IndexKey, hops: nat)
    decreases hops
  {
    if hops == 0 then key == other
    else key !in files.matrices && key in files.aliases && files.aliases[key].fingerprint != ""
         && Leads(files, files.aliases[key], other, hops - 1)
  }

  ghost predicate Follows(files: Files, key: IndexKey, other: IndexKey) {
    exists hops: nat :: Leads(files, key, other, hops)
  }

  lemma FollowsItself(files: Files, key: IndexKey)
    ensures Follows(files, key, key)
  {
    assert Leads(files, key, key, 0);
  }

  lemma FollowsAlias(files: Files, key: IndexKey, other: IndexKey)
    requires key !in files.matrices && key in files.aliases && files.aliases[key].fingerprint != ""
    ensures Follows(files, files.aliases[key], other) ==> Follows(files, key, other)
  {
    if Follows(files, files.aliases[key], other) {
      var hops: nat :| Leads(files, files.aliases[key], other, hops);
      assert Leads(files, key, other, hops + 1);
    }
  }

  /** Having come from `head` changes nothing for a chain that began right behind it. */
  lemma {:induction false} SeenHead(files: Files, head: IndexKey, key: IndexKey, seen: set<IndexKey>)
    requires head !in files.matrices && head in files.aliases && files.aliases[head] in seen && head !in seen
    ensures LoadMatrix(files, key, seen).1 == LoadMatrix(files, key, seen + {head}).1
    decreases files.aliases.Keys - seen
  {
    if key !in seen && key != head && key !in files.matrices && key in files.aliases && files.aliases[key].fingerprint != "" {
      SeenHead(files, head, files.aliases[key], seen + {key});
      assert seen + {key} + {head} == seen + {head} + {key};
    }
  }

  /** An index without a matrix reads what its alias reads. */
  lemma ReadsItsAlias(files: Files, key: IndexKey)
    requires key !in files.matrices && key in files.aliases && files.aliases[key].fingerprint != ""
    ensures MatrixAt(files, key) == MatrixAt(files, files.aliases[key])
  {
    var next := files.aliases[key];
    var none: set<IndexKey> := {};
    assert LoadMatrix(files, key, none).1 == LoadMatrix(files, next, none + {key}).1;
    if next != key && next !in files.matrices && next in files.aliases && files.aliases[next].fingerprint != "" {
      SeenHead(files, key, files.aliases[next], none + {next});
      assert none + {next} + {key} == none + {key} + {next};
    }
  }

  lemma {:induction false} LeadsReads(files: Files, key: IndexKey, other: IndexKey, hops: nat)
    requires Leads(files, key, other, hops)
    ensures MatrixAt(files, key) == MatrixAt(files, other)
    decreases hops
  {
    if hops > 0 {
      ReadsItsAlias(files, key);
      LeadsReads(files, files.aliases[key], other, hops - 1);
    }
  }

  lemma {:induction false} LeadsIntoSeen(files: Files, key: IndexKey, other: IndexKey, hops: nat, seen: set<IndexKey>)
    requires Leads(files, key, other, hops) && other in seen
    ensures LoadMatrix(files, key, seen).1.None?
    decreases hops
  {
    if hops > 0 && key !in seen {
      LeadsIntoSeen(files, files.aliases[key], other, hops - 1, seen + {key});
    }
  }

  // ----- one name changes -----

  /** Only the matrix and the alias of one name differ. */
  ghost predicate SameElsewhere(files: Files, files': Files, changed: IndexKey) {
    forall key :: key != changed ==>
      && (key in files'.matrices <==> key in files.matrices) && (key in files.matrices ==> files'.matrices[key] == files.matrices[key])
      && (key in files'.aliases <==> key in files.aliases) && (key in files.aliases ==> files'.aliases[key] == files.aliases[key])
  }

  /** Whoever does not lead to the changed name reads what it read. */
  lemma {:induction false} UnaffectedRead(files: Files, files': Files, changed: IndexKey, key: IndexKey, seen: set<IndexKey>)
    requires SameElsewhere(files, files', changed) && !Follows(files, key, changed)
    ensures LoadMatrix(files', key, seen).1 == LoadMatrix(files, key, seen).1
    decreases files.aliases.Keys - seen
  {
    FollowsItself(files, key);
    if key !in seen && key !in files.matrices && key in files.aliases && files.aliases[key].fingerprint != "" {
      FollowsAlias(files, key, changed);
      UnaffectedRead(files, files', changed, files.aliases[key], seen + {key});
    }
  }

  lemma {:induction false} StillLeads(files: Files, files': Files, changed: IndexKey, key: IndexKey, hops: nat)
    requires SameElsewhere(files, files', changed) && Leads(files, key, changed, hops)
    ensures Follows(files', key, changed)
    decreases hops
  {
    if key == changed {
      FollowsItself(files', key);
    } else {
      StillLeads(files, files', changed, files.aliases[key], hops - 1);
      FollowsAlias(files', key, changed);
    }
  }

  /** Whoever leads to the changed name reads what is read there now. */
  lemma ReadAfterChange(files: Files, files': Files, changed: IndexKey, key: IndexKey)
    requires SameElsewhere(files, files', changed)
    ensures MatrixAt(files', key) == if Follows(files, key, changed) then MatrixAt(files', changed) else MatrixAt(files, key)
  {
    if Follows(files, key, changed) {
      var hops: nat :| Leads(files, key, changed, hops);
      StillLeads(files, files', changed, key, hops);
      var hops': nat :| Leads(files', key, changed, hops');
      LeadsReads(files', key, changed, hops');
    } else {
      UnaffectedRead(files, files', changed, key, {});
    }
  }

  // ----- the steps -----

  ghost predicate TrueRows(vectorOf: VectorOf, record: Record) {
    forall d <- record.documents :: Stored(d) && d.fingerprint != "" && d.vector == vectorOf((record.model, d.fingerprint))
  }

  /** A full write aligns its own index, whatever was there. */
  lemma WriteAligns(vectorOf: VectorOf, files: Files, key: IndexKey, record: Record)
    requires TrueRows(vectorOf, record)
    ensures Aligned(vectorOf, WriteCache(files, key, record), key)
  {
    ReconstructibleMeta(record.documents);
    RowsFollowIdentifiers(record.documents);
    assert RowsOf(record.documents) == ListedRows(vectorOf, StatusOf(record));
  }

  /** It keeps another index aligned exactly when that one does not lead here, or the new rows are those it lists. */
  lemma WriteKeepsOtherAligned(vectorOf: VectorOf, files: Files, key: IndexKey, record: Record, other: IndexKey)
    requires other != key && Aligned(vectorOf, files, other)
    ensures Aligned(vectorOf, WriteCache(files, key, record), other)
            <==> (Follows(files, other, key) && RowsOf(record.documents) != [] ==>
                    RowsOf(record.documents) == ListedRows(vectorOf, files.statuses[other]))
  {
    var files' := WriteCache(files, key, record);
    ReadAfterChange(files, files', key, other);
    assert MatrixAt(files', key) == if RowsOf(record.documents) == [] then None else Some(RowsOf(record.documents));
  }

  /** Loads only drop aliases, and so keep every index aligned. */
  lemma {:induction false} DroppedRead(files: Files, files': Files, key: IndexKey, seen: set<IndexKey>)
    requires OnlyAliasesDropped(files, files')
    ensures LoadMatrix(files', key, seen).1 in {None, LoadMatrix(files, key, seen).1}
    decreases files.aliases.Keys - seen
  {
    if key !in seen && key !in files.matrices && key in files'.aliases && files'.aliases[key].fingerprint != "" {
      DroppedRead(files, files', files.aliases[key], seen + {key});
    }
  }

  lemma DropsKeepAligned(vectorOf: VectorOf, files: Files, files': Files, key: IndexKey)
    requires OnlyAliasesDropped(files, files') && Aligned(vectorOf, files, key)
    ensures Aligned(vectorOf, files', key)
  {
    DroppedRead(files, files', key, {});
  }

  lemma GetIndexDrops(shardOf: string -> string, s: Service, key: IndexKey)
    ensures OnlyAliasesDropped(s.files, GetIndex(shardOf, s, key).0.files)
  {
    LoadCacheDropsOnlyAliases(s.files, key, {});
    LoadStatusDropsOnlyAliases(LoadCache(s.files, key, {}).0, key, {});
  }

  lemma GetIndexKeepsAligned(vectorOf: VectorOf, shardOf: string -> string, s: Service, key: IndexKey, other: IndexKey)
    requires Aligned(vectorOf, s.files, other)
    ensures Aligned(vectorOf, GetIndex(shardOf, s, key).0.files, other)
  {
    GetIndexDrops(shardOf, s, key);
    DropsKeepAligned(vectorOf, s.files, GetIndex(shardOf, s, key).0.files, other);
  }

  lemma CloneSourceDrops(shardOf: string -> string, s: Service, source: IndexKey)
    ensures OnlyAliasesDropped(s.files, CloneSource(shardOf, s, source).0.files)
  {
    var files := LoadStatus(s.files, source, {}).0;
    LoadStatusDropsOnlyAliases(s.files, source, {});
    GetIndexDrops(shardOf, s.(files := files), source);
  }

  /** Only aliases that name nothing are gone. */
  ghost predicate OnlyEmptyDropped(files: Files, files': Files) {
    OnlyAliasesDropped(files, files') && forall k <- files.aliases :: k !in files'.aliases ==> files.aliases[k].fingerprint == ""
  }

  lemma {:induction false} LoadStatusDropsOnlyEmpty(files: Files, key: IndexKey, seen: set<IndexKey>)
    ensures var (files', r) := LoadStatus(files, key, seen); OnlyEmptyDropped(files, files') && (r.Some? ==> files' == files)
    decreases files.aliases.Keys - seen
  {
    if key !in seen && key !in files.statuses && key in files.aliases && files.aliases[key].fingerprint != "" {
      LoadStatusDropsOnlyEmpty(files, files.aliases[key], seen + {key});
    }
  }

  /** A clone that is made has, on the way, dropped no alias that leads anywhere. */
  lemma CloneDropsOnlyEmpty(shardOf: string -> string, s: Service, source: IndexKey)
    requires CloneSource(shardOf, s, source).1.Some?
    ensures OnlyEmptyDropped(s.files, CloneSource(shardOf, s, source).0.files)
  {
    LoadStatusDropsOnlyEmpty(s.files, source, {});
    var (files1, status) := LoadStatus(s.files, source, {});
    if status.None? && source !in s.indexes {
      ASuccessfulLoadDropsNothing(files1, source, {});
      LoadCacheDropsOnlyAliases(files1, source, {});
      var files2 := LoadCache(files1, source, {}).0;
      StillNoStatus(s.files, files1, source, {});
      StillNoStatus(files1, files2, source, {});
    }
  }

  lemma {:induction false} EmptyDroppedRead(files: Files, files': Files, key: IndexKey, seen: set<IndexKey>)
    requires OnlyEmptyDropped(files, files')
    ensures LoadMatrix(files', key, seen).1 == LoadMatrix(files, key, seen).1
    decreases files.aliases.Keys - seen
  {
    if key !in seen && key !in files.matrices && key in files.aliases && files.aliases[key].fingerprint != "" {
      EmptyDroppedRead(files, files', files.aliases[key], seen + {key});
    }
  }

  lemma {:induction false} EmptyDroppedLeads(files: Files, files': Files, key: IndexKey, other: IndexKey, hops: nat)
    requires OnlyEmptyDropped(files, files')
    ensures Leads(files', key, other, hops) <==> Leads(files, key, other, hops)
    decreases hops
  {
    if hops > 0 && key !in files.matrices && key in files.aliases && files.aliases[key].fingerprint != "" {
      EmptyDroppedLeads(files, files', files.aliases[key], other, hops - 1);
    }
  }

  lemma EmptyDroppedFollows(files: Files, files': Files, key: IndexKey, other: IndexKey)
    requires OnlyEmptyDropped(files, files')
    ensures Follows(files', key, other) <==> Follows(files, key, other)
  {
    forall hops: nat ensures Leads(files', key, other, hops) <==> Leads(files, key, other, hops) {
      EmptyDroppedLeads(files, files', key, other, hops);
    }
  }

  /** What a name reads once it is an alias: its own matrix, nothing when the alias leads back to it or nowhere, or what the source reads. */
  lemma ReadThroughNewAlias(files: Files, files': Files, source: IndexKey, target: IndexKey)
    requires source != target && SameElsewhere(files, files', target)
    requires files'.matrices == files.matrices && target in files'.aliases && files'.aliases[target] == source
    ensures MatrixAt(files', target)
            == if target in files.matrices then Some(files.matrices[target])
               else if source.fingerprint == "" || Follows(files, source, target) then None else MatrixAt(files, source)
  {
    if target !in files.matrices && source.fingerprint != "" {
      if Follows(files, source, target) {
        var hops: nat :| Leads(files, source, target, hops);
        StillLeads(files, files', target, source, hops);
        var hops': nat :| Leads(files', source, target, hops');
        var none: set<IndexKey> := {};
        LeadsIntoSeen(files', source, target, hops', none + {target});
        assert MatrixAt(files', target) == LoadMatrix(files', source, none + {target}).1;
      } else {
        ReadsItsAlias(files', target);
        ReadAfterChange(files, files', target, source);
      }
    }
  }

  /**
   A clone keeps another index aligned exactly when that one does not come to read the source through it,
   or lists the rows the source reads.  That one comes to read the source when it leads to the new
   clone's name, no matrix lies under that name and the source itself does not lead there.
   */
  lemma CloneKeepsOtherAligned(vectorOf: VectorOf, shardOf: string -> string, s: Service, source: IndexKey, target: IndexKey, other: IndexKey)
    requires source != target && other != target && Aligned(vectorOf, s.files, other)
    ensures var (s', cloned) := CloneCache(shardOf, s, source, target);
            Aligned(vectorOf, s'.files, other)
            <==> (cloned && Follows(s.files, other, target) && target !in s.files.matrices
                  && source.fingerprint != "" && !Follows(s.files, source, target)
                  ==> RightRows(vectorOf, s.files.statuses[other], MatrixAt(s.files, source)))
  {
    var s1, s' := CloneSource(shardOf, s, source).0, CloneCache(shardOf, s, source, target).0;
    CloneSourceDrops(shardOf, s, source);
    DropsKeepAligned(vectorOf, s.files, s1.files, other);
    if CloneCache(shardOf, s, source, target).1 {
      CloneDropsOnlyEmpty(shardOf, s, source);
      EmptyDroppedFollows(s.files, s1.files, other, target);
      EmptyDroppedFollows(s.files, s1.files, source, target);
      EmptyDroppedRead(s.files, s1.files, source, {});
      ReadThroughNewAlias(s1.files, s'.files, source, target);
      ReadAfterChange(s1.files, s'.files, target, other);
      if target in s.files.matrices && Follows(s.files, other, target) {
        var hops: nat :| Leads(s.files, other, target, hops);
        LeadsReads(s.files, other, target, hops);
      }
    }
  }

  lemma ListsItsSource(vectorOf: VectorOf, shardOf: string -> string, s: Service, source: IndexKey, target: IndexKey)
    requires source != target && source in s.files.statuses && LinesUp(s.files.statuses[source])
    requires forall m <- s.files.statuses[source].meta :: m.id != "" && m.fingerprint != ""
    ensures var (s', cloned) := CloneCache(shardOf, s, source, target);
            && cloned && target in s'.files.statuses && LinesUp(s'.files.statuses[target])
            && ListedRows(vectorOf, s'.files.statuses[target]) == ListedRows(vectorOf, s.files.statuses[source])
            && s'.files.aliases == s.files.aliases[target := source] && s'.files.matrices == s.files.matrices
  {
    var meta := s.files.statuses[source].meta;
    forall d | d in Listed(meta) ensures d.id != "" && d.fingerprint != "" {
      var i :| 0 <= i < |meta| && Listed(meta)[i] == d;
      assert meta[i] in meta;
    }
    ReconstructibleMeta(Listed(meta));
    assert MetaOf(Listed(meta)) == meta;
  }

  /** A clone of an aligned index is aligned exactly when no other matrix of an earlier life lies under its own name. */
  lemma CloneOfAlignedIsAlignedIffNoOldMatrix(vectorOf: VectorOf, shardOf: string -> string, s: Service, source: IndexKey, target: IndexKey)
    requires source != target && source.fingerprint != "" && Aligned(vectorOf, s.files, source)
    requires forall m <- s.files.statuses[source].meta :: m.id != "" && m.fingerprint != ""
    ensures var (s', cloned) := CloneCache(shardOf, s, source, target);
            && cloned
            && (Aligned(vectorOf, s'.files, target)
                <==> (target in s.files.matrices ==> s.files.matrices[target] == ListedRows(vectorOf, s.files.statuses[source])))
  {
    ListsItsSource(vectorOf, shardOf, s, source, target);
    ReadThroughNewAlias(s.files, CloneCache(shardOf, s, source, target).0.files, source, target);
  }

  /**
   Without any matrix of an earlier life: an index and its clone are aligned, then the index alone is
   finalized again with the same documents in another order, and the clone pairs each identifier with
   the other's vector.
   */
  lemma ALaterWriteSwapsVectors(shardOf: string -> string, vectors: V.Store, profile: string, model: string, a: Document, b: Document)
    requires Stored(a) && Stored(b) && a.fingerprint != "" && b.fingerprint != ""
    ensures var source, target := IndexKey(profile, "base"), IndexKey(profile, "target");
            var written := WriteCache(Files(map[], map[], map[], map[]), source, Record(true, model, [a, b]));
            var s := CloneCache(shardOf, Service(map[], written, vectors), source, target).0;
            && FileSearchState(s.files, target) == Some(([a.id, b.id], [a.vector, b.vector]))
            && FileSearchState(WriteCache(s.files, source, Record(true, model, [b, a])), target) == Some(([a.id, b.id], [b.vector, a.vector]))
  {
    var source, target := IndexKey(profile, "base"), IndexKey(profile, "target");
    var record := Record(true, model, [a, b]);
    var s0 := Service(map[], WriteCache(Files(map[], map[], map[], map[]), source, record), vectors);
    var s := CloneCache(shardOf, s0, source, target).0;
    TwoDocuments(a, b);
    TwoDocuments(b, a);
    CloneListsTwo(shardOf, s0, source, target, record, a, b);
    ReadsItsAlias(s.files, target);
    ReadsItsAlias(WriteCache(s.files, source, Record(true, model, [b, a])), target);
  }

  lemma TwoDocuments(a: Document, b: Document)
    requires Stored(a) && Stored(b) && a.fingerprint != "" && b.fingerprint != ""
    ensures RowsOf([a, b]) == [a.vector, b.vector] && Identifiers([a, b]) == [a.id, b.id]
    ensures MetaOf([a, b]) == [Meta(a.id, a.fingerprint), Meta(b.id, b.fingerprint)]
  {
    RowsFollowIdentifiers([a, b]);
    ReconstructibleMeta([a, b]);
  }

  lemma CloneListsTwo(shardOf: string -> string, s: Service, source: IndexKey, target: IndexKey, record: Record, a: Document, b: Document)
    requires source != target && Stored(a) && Stored(b) && a.fingerprint != "" && b.fingerprint != ""
    requires record.documents == [a, b] && record.ready && source in s.files.statuses && s.files.statuses[source] == StatusOf(record)
    ensures var files := CloneCache(shardOf, s, source, target).0.files;
            && target in files.statuses && files.statuses[target].ready && files.statuses[target].identifiers == [a.id, b.id]
            && files.aliases == s.files.aliases[target := source] && files.matrices == s.files.matrices
  {
    TwoDocuments(a, b);
    ReconstructibleMeta(Listed(MetaOf([a, b])));
  }
}
