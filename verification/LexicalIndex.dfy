/**
 The lexical index: a table of chunks and a full-text table beside it, brought up to date file by
 file.  The update deletes what stale files held before it inserts anything, and must end where a
 rebuild would.
 */
module LexicalIndex {
  import opened Prelude

  datatype Chunk = Chunk(
    id: string, namespace: string, repositoryPath: string, path: string, language: string, symbol: string,
    lineStart: nat, lineEnd: nat, contentHash: string, tokens: nat, content: string)

  /** What a manifest says about one chunk: everything but the displayed path, the language and the text itself. */
  datatype Entry = Entry(id: string, symbol: string, lineStart: nat, lineEnd: nat, contentHash: string, tokens: nat)

  datatype FtsRow = FtsRow(id: string, path: string, symbol: string, content: string)

  datatype FileKey = FileKey(namespace: string, repositoryPath: string)

  type Rows = map<string, Chunk>
  type Manifest = map<FileKey, seq<Entry>>

  function KeyOf(c: Chunk): FileKey {
    FileKey(c.namespace, c.repositoryPath)
  }

  function EntryOf(c: Chunk): Entry {
    Entry(c.id, c.symbol, c.lineStart, c.lineEnd, c.contentHash, c.tokens)
  }

  function FtsOf(c: Chunk): FtsRow {
    FtsRow(c.id, c.path, c.symbol, c.content)
  }

  predicate EntryLess(a: Entry, b: Entry) {
    a.lineStart < b.lineStart || (a.lineStart == b.lineStart && StringLess(a.id, b.id))
  }

  function FileRows(chunks: seq<Chunk>, key: FileKey): seq<Chunk> {
    if chunks == [] then []
    else
      var front, last := FileRows(chunks[..|chunks| - 1], key), chunks[|chunks| - 1];
      if KeyOf(last) == key then front + [last] else front
  }

  /** The digest of a file's entries, taken as the entries themselves: digests do not collide. */
  function Signature(chunks: seq<Chunk>): seq<Entry> {
    Sort(Mapped(EntryOf, chunks), EntryLess)
  }

  function ManifestOf(chunks: seq<Chunk>): Manifest {
    map key | key in (set c | c in chunks :: KeyOf(c)) :: Signature(FileRows(chunks, key))
  }

  /** Files of the previous manifest that are gone, and files that are new or have another signature. */
  function Removed(previous: Manifest, desired: Manifest): set<FileKey> {
    previous.Keys - desired.Keys
  }

  function Changed(previous: Manifest, desired: Manifest): set<FileKey> {
    set key | key in desired && (key !in previous || previous[key] != desired[key])
  }

  function Stale(previous: Manifest, desired: Manifest): set<FileKey> {
    Removed(previous, desired) + Changed(previous, desired)
  }

  function Table(chunks: seq<Chunk>): Rows {
    if chunks == [] then map[] else Table(chunks[..|chunks| - 1])[chunks[|chunks| - 1].id := chunks[|chunks| - 1]]
  }

  function RowsWithout(rows: Rows, keys: set<FileKey>): Rows {
    map id | id in rows && KeyOf(rows[id]) !in keys :: rows[id]
  }

  function FtsWithout(fts: seq<FtsRow>, ids: set<string>): seq<FtsRow> {
    if fts == [] then []
    else
      var front, last := FtsWithout(fts[..|fts| - 1], ids), fts[|fts| - 1];
      if last.id in ids then front else front + [last]
  }

  ghost predicate UniqueIds(chunks: seq<Chunk>) {
    forall i, j :: 0 <= i < j < |chunks| ==> chunks[i].id != chunks[j].id
  }

  /** Each row under its own id, and the full-text table holds each row's text exactly once. */
  ghost predicate Mirrors(rows: Rows, fts: seq<FtsRow>) {
    && (forall id <- rows :: rows[id].id == id && FtsOf(rows[id]) in fts)
    && (forall f <- fts :: f.id in rows && f == FtsOf(rows[f.id]))
    && Unique(fts)
  }

  /** The table holds what a manifest lists, file by file. */
  ghost predicate Matches(rows: Rows, manifest: Manifest) {
    && (forall id <- rows :: rows[id].id == id && KeyOf(rows[id]) in manifest && EntryOf(rows[id]) in manifest[KeyOf(rows[id])])
    && (forall key <- manifest :: forall e <- manifest[key] :: e.id in rows && KeyOf(rows[e.id]) == key && EntryOf(rows[e.id]) == e)
  }

  /** Each row under its own id. */
  ghost predicate RowsKeyed(rows: Rows) {
    forall id <- rows :: rows[id].id == id
  }

  /** Of the files an update to these chunks leaves alone, the table holds what the manifest lists. */
  ghost predicate KeptMatch(rows: Rows, previous: Manifest, chunks: seq<Chunk>) {
    var stale := Stale(previous, ManifestOf(chunks));
    Matches(RowsWithout(rows, stale), previous - stale)
  }

  lemma MatchingIsKept(rows: Rows, previous: Manifest, chunks: seq<Chunk>)
    requires Matches(rows, previous)
    ensures KeptMatch(rows, previous, chunks) && RowsKeyed(rows)
  {
    var stale := Stale(previous, ManifestOf(chunks));
    var kept, listed := RowsWithout(rows, stale), previous - stale;
    forall id | id in kept ensures kept[id].id == id && KeyOf(kept[id]) in listed && EntryOf(kept[id]) in listed[KeyOf(kept[id])] {
      assert KeyOf(rows[id]) in previous;
    }
    forall key: FileKey, e: Entry | key in listed && e in listed[key]
      ensures e.id in kept && KeyOf(kept[e.id]) == key && EntryOf(kept[e.id]) == e
    {
      assert key in previous && e in previous[key];
    }
  }

  lemma LastIdIsNew(chunks: seq<Chunk>)
    requires UniqueIds(chunks) && chunks != []
    ensures forall c <- chunks[..|chunks| - 1] :: c.id != chunks[|chunks| - 1].id
  {
    var front := chunks[..|chunks| - 1];
    forall c | c in front ensures c.id != chunks[|chunks| - 1].id {
      var i :| 0 <= i < |front| && front[i] == c;
      assert chunks[i] == c;
    }
  }

  lemma {:induction false} TableMembers(chunks: seq<Chunk>)
    requires UniqueIds(chunks)
    ensures Table(chunks).Keys == set c | c in chunks :: c.id
    ensures forall c <- chunks :: Table(chunks)[c.id] == c
  {
    if chunks != [] {
      var n := |chunks| - 1;
      TableMembers(chunks[..n]);
      LastIdIsNew(chunks);
      assert chunks == chunks[..n] + [chunks[n]];
    }
  }

  lemma {:induction false} FileRowsMembers(chunks: seq<Chunk>, key: FileKey)
    ensures forall c :: c in FileRows(chunks, key) <==> c in chunks && KeyOf(c) == key
  {
    if chunks != [] {
      FileRowsMembers(chunks[..|chunks| - 1], key);
    }
  }

  lemma SignatureMembers(chunks: seq<Chunk>, e: Entry)
    ensures e in Signature(chunks) <==> exists c :: c in chunks && EntryOf(c) == e
  {
    SortedMembers(Mapped(EntryOf, chunks), EntryLess);
    if e in Signature(chunks) {
      var i :| 0 <= i < |chunks| && Mapped(EntryOf, chunks)[i] == e;
      assert EntryOf(chunks[i]) == e;
    }
    forall c | c in chunks && EntryOf(c) == e ensures e in Mapped(EntryOf, chunks) {
      var i :| 0 <= i < |chunks| && chunks[i] == c;
      assert Mapped(EntryOf, chunks)[i] == e;
    }
  }

  /** An entry stands in the manifest of a list of chunks exactly when a chunk of that file has it. */
  lemma ManifestMembers(chunks: seq<Chunk>, key: FileKey, e: Entry)
    ensures key in ManifestOf(chunks) && e in ManifestOf(chunks)[key] <==> exists c :: c in chunks && KeyOf(c) == key && EntryOf(c) == e
  {
    FileRowsMembers(chunks, key);
    SignatureMembers(FileRows(chunks, key), e);
    if c :| c in chunks && KeyOf(c) == key && EntryOf(c) == e {
      assert key in ManifestOf(chunks);
      assert c in FileRows(chunks, key);
    }
  }

  lemma {:induction false} FtsWithoutMembers(fts: seq<FtsRow>, ids: set<string>)
    ensures forall f :: f in FtsWithout(fts, ids) <==> f in fts && f.id !in ids
    ensures Unique(fts) ==> Unique(FtsWithout(fts, ids))
  {
    if fts != [] {
      FtsWithoutMembers(fts[..|fts| - 1], ids);
      assert fts == fts[..|fts| - 1] + [fts[|fts| - 1]];
      if Unique(fts) {
        LastNotBefore(fts);
      }
    }
  }

  lemma LastNotBefore<T>(xs: seq<T>)
    requires Unique(xs) && xs != []
    ensures xs[|xs| - 1] !in xs[..|xs| - 1]
  {
  }

  lemma {:induction false} FtsWithoutTwice(fts: seq<FtsRow>, a: set<string>, b: set<string>)
    ensures FtsWithout(FtsWithout(fts, a), b) == FtsWithout(fts, a + b)
  {
    if fts != [] {
      var front, last := fts[..|fts| - 1], fts[|fts| - 1];
      FtsWithoutTwice(front, a, b);
      assert (FtsWithout(front, a) + [last])[..|FtsWithout(front, a)|] == FtsWithout(front, a);
    }
  }

  // ----- the update against a rebuild -----

  /** The same chunk as far as a manifest can tell. */
  predicate SameEntry(a: Chunk, b: Chunk) {
    KeyOf(a) == KeyOf(b) && EntryOf(a) == EntryOf(b)
  }

  /** The table is that of a rebuild except, at most, for displayed paths and languages. */
  ghost predicate Agrees(rows: Rows, chunks: seq<Chunk>) {
    && rows.Keys == (set c | c in chunks :: c.id)
    && forall c <- chunks :: SameEntry(rows[c.id], c) && rows[c.id].content == c.content
  }

  /** A content hash is that of the content. */
  ghost predicate Hashed(hash: string -> string, c: Chunk) {
    c.contentHash == hash(c.content)
  }

  /** Exactly the chunks of changed files. */
  ghost predicate Inserts(chunks: seq<Chunk>, changed: set<FileKey>, inserted: seq<Chunk>) {
    UniqueIds(inserted) && forall c :: c in inserted <==> c in chunks && KeyOf(c) in changed
  }

  /** No id is repeated among the chunks or taken by a row: what the primary key asks of an insert. */
  ghost predicate Insertable(rows: Rows, chunks: seq<Chunk>) {
    UniqueIds(chunks) && forall c <- chunks :: c.id !in rows
  }

  lemma UniqueIdOwners(chunks: seq<Chunk>, a: Chunk, b: Chunk)
    requires UniqueIds(chunks) && a in chunks && b in chunks && a.id == b.id
    ensures a == b
  {
    var i :| 0 <= i < |chunks| && chunks[i] == a;
    var j :| 0 <= j < |chunks| && chunks[j] == b;
  }

  /** A row that is not stale is that of a chunk of an unchanged file. */
  lemma KeptRowIsDesired(rows: Rows, previous: Manifest, chunks: seq<Chunk>, id: string) returns (c: Chunk)
    requires KeptMatch(rows, previous, chunks) && id in RowsWithout(rows, Stale(previous, ManifestOf(chunks)))
    ensures c in chunks && c.id == id && SameEntry(rows[id], c) && KeyOf(c) !in Changed(previous, ManifestOf(chunks))
  {
    var key, e := KeyOf(rows[id]), EntryOf(rows[id]);
    ManifestMembers(chunks, key, e);
    c :| c in chunks && KeyOf(c) == key && EntryOf(c) == e;
  }

  /** A chunk of an unchanged file has its row already. */
  lemma UnchangedChunkIsKept(rows: Rows, previous: Manifest, chunks: seq<Chunk>, c: Chunk)
    requires KeptMatch(rows, previous, chunks) && c in chunks && KeyOf(c) !in Changed(previous, ManifestOf(chunks))
    ensures c.id in RowsWithout(rows, Stale(previous, ManifestOf(chunks))) && SameEntry(rows[c.id], c)
  {
    ManifestMembers(chunks, KeyOf(c), EntryOf(c));
    var stale := Stale(previous, ManifestOf(chunks));
    assert KeyOf(c) in previous - stale && EntryOf(c) in (previous - stale)[KeyOf(c)];
  }

  /** All stale rows being gone, no insert meets a row with its id. */
  lemma NoInsertConflicts(rows: Rows, previous: Manifest, chunks: seq<Chunk>, inserted: seq<Chunk>)
    requires KeptMatch(rows, previous, chunks) && UniqueIds(chunks) && Inserts(chunks, Changed(previous, ManifestOf(chunks)), inserted)
    ensures forall c <- inserted :: c.id !in RowsWithout(rows, Stale(previous, ManifestOf(chunks)))
  {
    forall c | c in inserted && c.id in RowsWithout(rows, Stale(previous, ManifestOf(chunks))) ensures false {
      var d := KeptRowIsDesired(rows, previous, chunks, c.id);
      UniqueIdOwners(chunks, c, d);
    }
  }

  function UpdatedRows(rows: Rows, previous: Manifest, chunks: seq<Chunk>, inserted: seq<Chunk>): Rows {
    RowsWithout(rows, Stale(previous, ManifestOf(chunks))) + Table(inserted)
  }

  lemma UnchangedIsNotInserted(chunks: seq<Chunk>, changed: set<FileKey>, inserted: seq<Chunk>, c: Chunk)
    requires UniqueIds(chunks) && Inserts(chunks, changed, inserted) && c in chunks && KeyOf(c) !in changed
    ensures c.id !in Table(inserted) && forall d <- inserted :: d.id != c.id
  {
    TableMembers(inserted);
    forall d | d in inserted ensures d.id != c.id {
      if d.id == c.id {
        UniqueIdOwners(chunks, c, d);
      }
    }
  }

  lemma UpdatedRowAt(rows: Rows, previous: Manifest, chunks: seq<Chunk>, inserted: seq<Chunk>, c: Chunk)
    requires KeptMatch(rows, previous, chunks) && UniqueIds(chunks) && c in chunks
    requires Inserts(chunks, Changed(previous, ManifestOf(chunks)), inserted)
    ensures var rows' := UpdatedRows(rows, previous, chunks, inserted);
            && c.id in rows'
            && if c in inserted then rows'[c.id] == c else c.id in rows && rows'[c.id] == rows[c.id] && SameEntry(rows[c.id], c)
  {
    TableMembers(inserted);
    if c !in inserted {
      UnchangedChunkIsKept(rows, previous, chunks, c);
      UnchangedIsNotInserted(chunks, Changed(previous, ManifestOf(chunks)), inserted, c);
    }
  }

  lemma UpdatedIds(rows: Rows, previous: Manifest, chunks: seq<Chunk>, inserted: seq<Chunk>)
    requires KeptMatch(rows, previous, chunks) && UniqueIds(chunks) && Inserts(chunks, Changed(previous, ManifestOf(chunks)), inserted)
    ensures UpdatedRows(rows, previous, chunks, inserted).Keys == set c | c in chunks :: c.id
  {
    TableMembers(inserted);
    var rows' := UpdatedRows(rows, previous, chunks, inserted);
    forall id | id in rows' ensures exists c :: c in chunks && c.id == id {
      if id in Table(inserted) {
        var c :| c in inserted && c.id == id;
      } else {
        var c := KeptRowIsDesired(rows, previous, chunks, id);
      }
    }
    forall c | c in chunks ensures c.id in rows' {
      UpdatedRowAt(rows, previous, chunks, inserted, c);
    }
  }

  lemma SameContent(hash: string -> string, a: Chunk, b: Chunk)
    requires Injective(hash) && Hashed(hash, a) && Hashed(hash, b) && SameEntry(a, b)
    ensures a.content == b.content
  {
  }

  lemma KeptMatchAgrees(hash: string -> string, rows: Rows, previous: Manifest, chunks: seq<Chunk>, inserted: seq<Chunk>)
    requires Injective(hash) && (forall id <- rows :: Hashed(hash, rows[id])) && (forall c <- chunks :: Hashed(hash, c))
    requires KeptMatch(rows, previous, chunks) && UniqueIds(chunks) && Inserts(chunks, Changed(previous, ManifestOf(chunks)), inserted)
    ensures Agrees(UpdatedRows(rows, previous, chunks, inserted), chunks)
  {
    UpdatedIds(rows, previous, chunks, inserted);
    var rows' := UpdatedRows(rows, previous, chunks, inserted);
    forall c | c in chunks ensures SameEntry(rows'[c.id], c) && rows'[c.id].content == c.content {
      UpdatedRowAt(rows, previous, chunks, inserted, c);
      if c !in inserted {
        SameContent(hash, rows[c.id], c);
      }
    }
  }

  /** A row that stays shows in the updated table, and is an entry of the manifest if that table is right. */
  lemma KeptRowIsListed(rows: Rows, previous: Manifest, chunks: seq<Chunk>, inserted: seq<Chunk>, id: string)
    requires Insertable(RowsWithout(rows, Stale(previous, ManifestOf(chunks))), inserted)
    requires Agrees(UpdatedRows(rows, previous, chunks, inserted), chunks) && id in RowsWithout(rows, Stale(previous, ManifestOf(chunks)))
    ensures KeyOf(rows[id]) in previous && EntryOf(rows[id]) in previous[KeyOf(rows[id])]
  {
    TableMembers(inserted);
    assert UpdatedRows(rows, previous, chunks, inserted)[id] == rows[id];
    var c :| c in chunks && c.id == id;
    ManifestMembers(chunks, KeyOf(rows[id]), EntryOf(rows[id]));
    assert KeyOf(c) !in Changed(previous, ManifestOf(chunks));
  }

  /** An entry of an unchanged file has its row if the updated table is right. */
  lemma UnchangedEntryHasRow(rows: Rows, previous: Manifest, chunks: seq<Chunk>, inserted: seq<Chunk>, key: FileKey, e: Entry)
    requires UniqueIds(chunks) && Inserts(chunks, Changed(previous, ManifestOf(chunks)), inserted)
    requires Agrees(UpdatedRows(rows, previous, chunks, inserted), chunks)
    requires key in previous && key !in Stale(previous, ManifestOf(chunks)) && e in previous[key]
    ensures e.id in RowsWithout(rows, Stale(previous, ManifestOf(chunks))) && KeyOf(rows[e.id]) == key && EntryOf(rows[e.id]) == e
  {
    ManifestMembers(chunks, key, e);
    var c :| c in chunks && KeyOf(c) == key && EntryOf(c) == e;
    UnchangedIsNotInserted(chunks, Changed(previous, ManifestOf(chunks)), inserted, c);
    assert UpdatedRows(rows, previous, chunks, inserted)[c.id] == rows[c.id];
  }

  /**
   From any manifest, one left behind by a crash included: an update that inserts without a conflict ends
   in the table of a rebuild, on everything a manifest covers, exactly when of the files it leaves alone
   the table holds what the manifest lists.
   */
  lemma UpdateAgreesIffKeptMatch(hash: string -> string, rows: Rows, previous: Manifest, chunks: seq<Chunk>, inserted: seq<Chunk>)
    requires Injective(hash) && (forall id <- rows :: Hashed(hash, rows[id])) && (forall c <- chunks :: Hashed(hash, c))
    requires RowsKeyed(rows) && UniqueIds(chunks) && Inserts(chunks, Changed(previous, ManifestOf(chunks)), inserted)
    requires Insertable(RowsWithout(rows, Stale(previous, ManifestOf(chunks))), inserted)
    ensures Agrees(UpdatedRows(rows, previous, chunks, inserted), chunks) <==> KeptMatch(rows, previous, chunks)
  {
    if KeptMatch(rows, previous, chunks) {
      KeptMatchAgrees(hash, rows, previous, chunks, inserted);
    }
    if Agrees(UpdatedRows(rows, previous, chunks, inserted), chunks) {
      AgreeingIsKeptMatch(rows, previous, chunks, inserted);
    }
  }

  lemma AgreeingIsKeptMatch(rows: Rows, previous: Manifest, chunks: seq<Chunk>, inserted: seq<Chunk>)
    requires RowsKeyed(rows) && UniqueIds(chunks) && Inserts(chunks, Changed(previous, ManifestOf(chunks)), inserted)
    requires Insertable(RowsWithout(rows, Stale(previous, ManifestOf(chunks))), inserted)
    requires Agrees(UpdatedRows(rows, previous, chunks, inserted), chunks)
    ensures KeptMatch(rows, previous, chunks)
  {
    var stale := Stale(previous, ManifestOf(chunks));
    var kept, listed := RowsWithout(rows, stale), previous - stale;
    forall id | id in kept ensures kept[id].id == id && KeyOf(kept[id]) in listed && EntryOf(kept[id]) in listed[KeyOf(kept[id])] {
      KeptRowIsListed(rows, previous, chunks, inserted, id);
    }
    forall key: FileKey, e: Entry | key in listed && e in listed[key]
      ensures e.id in kept && KeyOf(kept[e.id]) == key && EntryOf(kept[e.id]) == e
    {
      UnchangedEntryHasRow(rows, previous, chunks, inserted, key, e);
    }
  }

  /** So from a matching manifest it always does. */
  lemma UpdateAgreesWithRebuild(hash: string -> string, rows: Rows, previous: Manifest, chunks: seq<Chunk>, inserted: seq<Chunk>)
    requires Injective(hash) && (forall id <- rows :: Hashed(hash, rows[id])) && (forall c <- chunks :: Hashed(hash, c))
    requires Matches(rows, previous) && UniqueIds(chunks) && Inserts(chunks, Changed(previous, ManifestOf(chunks)), inserted)
    ensures Agrees(UpdatedRows(rows, previous, chunks, inserted), chunks)
  {
    MatchingIsKept(rows, previous, chunks);
    NoInsertConflicts(rows, previous, chunks, inserted);
    UpdateAgreesIffKeptMatch(hash, rows, previous, chunks, inserted);
  }

  /** A table that agrees with the chunks matches their manifest, so the next update may start from it. */
  lemma AgreeingTableMatches(rows: Rows, chunks: seq<Chunk>)
    requires Agrees(rows, chunks) && UniqueIds(chunks) && forall id <- rows :: rows[id].id == id
    ensures Matches(rows, ManifestOf(chunks))
  {
    forall id | id in rows ensures KeyOf(rows[id]) in ManifestOf(chunks) && EntryOf(rows[id]) in ManifestOf(chunks)[KeyOf(rows[id])] {
      var c :| c in chunks && c.id == id;
      ManifestMembers(chunks, KeyOf(rows[id]), EntryOf(rows[id]));
    }
    var manifest := ManifestOf(chunks);
    forall key: FileKey, e: Entry | key in manifest && e in manifest[key] ensures e.id in rows && KeyOf(rows[e.id]) == key && EntryOf(rows[e.id]) == e {
      ManifestMembers(chunks, key, e);
      var c :| c in chunks && KeyOf(c) == key && EntryOf(c) == e;
    }
  }

  /** The row of an unchanged file still has the displayed path and language of its chunk. */
  ghost predicate LabelCurrent(rows: Rows, changed: set<FileKey>, c: Chunk) {
    KeyOf(c) !in changed && c.id in rows ==> rows[c.id].path == c.path && rows[c.id].language == c.language
  }

  lemma TableIffRows(rows: Rows, chunks: seq<Chunk>)
    requires rows.Keys == (set c | c in chunks :: c.id) && UniqueIds(chunks)
    ensures rows == Table(chunks) <==> forall c <- chunks :: rows[c.id] == c
  {
    TableMembers(chunks);
    if forall c <- chunks :: rows[c.id] == c {
      forall id | id in rows ensures rows[id] == Table(chunks)[id] {
        var c :| c in chunks && c.id == id;
      }
    }
  }

  lemma RowIsChunkIffLabelCurrent(hash: string -> string, rows: Rows, previous: Manifest, chunks: seq<Chunk>, inserted: seq<Chunk>, c: Chunk)
    requires Injective(hash) && (forall id <- rows :: Hashed(hash, rows[id])) && Hashed(hash, c)
    requires KeptMatch(rows, previous, chunks) && UniqueIds(chunks) && c in chunks
    requires Inserts(chunks, Changed(previous, ManifestOf(chunks)), inserted)
    ensures c.id in UpdatedRows(rows, previous, chunks, inserted)
    ensures UpdatedRows(rows, previous, chunks, inserted)[c.id] == c <==> LabelCurrent(rows, Changed(previous, ManifestOf(chunks)), c)
  {
    UpdatedRowAt(rows, previous, chunks, inserted, c);
    if c !in inserted {
      SameContent(hash, rows[c.id], c);
    }
  }

  lemma KeptTableIsRebuiltIffLabelsCurrent(hash: string -> string, rows: Rows, previous: Manifest, chunks: seq<Chunk>, inserted: seq<Chunk>)
    requires Injective(hash) && (forall id <- rows :: Hashed(hash, rows[id])) && (forall c <- chunks :: Hashed(hash, c))
    requires KeptMatch(rows, previous, chunks) && UniqueIds(chunks) && Inserts(chunks, Changed(previous, ManifestOf(chunks)), inserted)
    ensures UpdatedRows(rows, previous, chunks, inserted) == Table(chunks)
            <==> forall c <- chunks :: LabelCurrent(rows, Changed(previous, ManifestOf(chunks)), c)
  {
    UpdatedIds(rows, previous, chunks, inserted);
    TableIffRows(UpdatedRows(rows, previous, chunks, inserted), chunks);
    forall c | c in chunks
      ensures UpdatedRows(rows, previous, chunks, inserted)[c.id] == c <==> LabelCurrent(rows, Changed(previous, ManifestOf(chunks)), c)
    {
      RowIsChunkIffLabelCurrent(hash, rows, previous, chunks, inserted, c);
    }
  }

  /**
   It is the very table of a rebuild exactly when, besides, no unchanged file has a new displayed path or
   language.
   */
  lemma UpdateIsRebuildIffLabelsCurrent(hash: string -> string, rows: Rows, previous: Manifest, chunks: seq<Chunk>, inserted: seq<Chunk>)
    requires Injective(hash) && (forall id <- rows :: Hashed(hash, rows[id])) && (forall c <- chunks :: Hashed(hash, c))
    requires RowsKeyed(rows) && UniqueIds(chunks) && Inserts(chunks, Changed(previous, ManifestOf(chunks)), inserted)
    requires Insertable(RowsWithout(rows, Stale(previous, ManifestOf(chunks))), inserted)
    ensures UpdatedRows(rows, previous, chunks, inserted) == Table(chunks)
            <==> KeptMatch(rows, previous, chunks) && forall c <- chunks :: LabelCurrent(rows, Changed(previous, ManifestOf(chunks)), c)
  {
    if UpdatedRows(rows, previous, chunks, inserted) == Table(chunks) {
      RebuildAgrees(chunks);
      UpdateAgreesIffKeptMatch(hash, rows, previous, chunks, inserted);
    }
    if KeptMatch(rows, previous, chunks) {
      KeptTableIsRebuiltIffLabelsCurrent(hash, rows, previous, chunks, inserted);
    }
  }

  // ----- the full-text table -----

  /** The ids a manifest lists under some files. */
  function ListedIds(manifest: Manifest, keys: set<FileKey>): set<string> {
    set key, e | key in keys && key in manifest && e in manifest[key] :: e.id
  }

  ghost predicate FtsIds(rows: Rows, manifest: Manifest, keys: set<FileKey>) {
    forall id <- rows :: id in ListedIds(manifest, keys) <==> KeyOf(rows[id]) in keys
  }

  function FtsRows(chunks: seq<Chunk>): seq<FtsRow> {
    Mapped(FtsOf, chunks)
  }

  lemma {:induction false} FtsRowsMembers(chunks: seq<Chunk>)
    ensures forall f :: f in FtsRows(chunks) <==> exists c :: c in chunks && FtsOf(c) == f
    ensures UniqueIds(chunks) ==> Unique(FtsRows(chunks))
  {
    forall f ensures f in FtsRows(chunks) <==> exists c :: c in chunks && FtsOf(c) == f {
      if f in FtsRows(chunks) {
        var i :| 0 <= i < |chunks| && FtsRows(chunks)[i] == f;
        assert FtsOf(chunks[i]) == f;
      }
      if c :| c in chunks && FtsOf(c) == f {
        var i :| 0 <= i < |chunks| && chunks[i] == c;
        assert FtsRows(chunks)[i] == FtsOf(c);
      }
    }
    if UniqueIds(chunks) {
      forall i, j | 0 <= i < j < |chunks| ensures FtsRows(chunks)[i] != FtsRows(chunks)[j] {
        assert FtsRows(chunks)[i] == FtsOf(chunks[i]) && FtsRows(chunks)[j] == FtsOf(chunks[j]);
      }
    }
  }

  lemma DeletesMirror(rows: Rows, fts: seq<FtsRow>, manifest: Manifest, keys: set<FileKey>)
    requires Mirrors(rows, fts) && FtsIds(rows, manifest, keys)
    ensures Mirrors(RowsWithout(rows, keys), FtsWithout(fts, ListedIds(manifest, keys)))
  {
    FtsWithoutMembers(fts, ListedIds(manifest, keys));
  }

  lemma InsertsMirror(rows: Rows, fts: seq<FtsRow>, chunks: seq<Chunk>)
    requires Mirrors(rows, fts) && UniqueIds(chunks) && forall c <- chunks :: c.id !in rows
    ensures Mirrors(rows + Table(chunks), fts + FtsRows(chunks))
  {
    TableMembers(chunks);
    FtsRowsMembers(chunks);
    var rows', fts' := rows + Table(chunks), fts + FtsRows(chunks);
    forall id | id in rows' ensures rows'[id].id == id && FtsOf(rows'[id]) in fts' {
      if id in Table(chunks) {
        var c :| c in chunks && c.id == id;
      }
    }
    forall f | f in fts' ensures f.id in rows' && f == FtsOf(rows'[f.id]) {
      if f in FtsRows(chunks) {
        var c :| c in chunks && FtsOf(c) == f;
      }
    }
    forall i, j | 0 <= i < |fts| && 0 <= j < |FtsRows(chunks)| ensures fts[i] != FtsRows(chunks)[j] {
      assert fts[i] in fts && FtsRows(chunks)[j] in FtsRows(chunks);
    }
  }

  /** A manifest that matches the table lists just the ids the stale files have there. */
  lemma MatchingManifestListsIds(rows: Rows, manifest: Manifest, keys: set<FileKey>)
    requires Matches(rows, manifest)
    ensures FtsIds(rows, manifest, keys)
  {
    forall id | id in rows && KeyOf(rows[id]) in keys ensures id in ListedIds(manifest, keys) {
      assert EntryOf(rows[id]) in manifest[KeyOf(rows[id])];
    }
  }

  function UpdatedFts(fts: seq<FtsRow>, previous: Manifest, chunks: seq<Chunk>, inserted: seq<Chunk>): seq<FtsRow> {
    FtsWithout(fts, ListedIds(previous, Stale(previous, ManifestOf(chunks)))) + FtsRows(inserted)
  }

  /** A full-text row deleted although its chunk stays leaves that chunk without one. */
  lemma DeletedRowIsMissed(rows: Rows, fts: seq<FtsRow>, previous: Manifest, chunks: seq<Chunk>, inserted: seq<Chunk>, id: string)
    requires Mirrors(rows, fts) && Insertable(RowsWithout(rows, Stale(previous, ManifestOf(chunks))), inserted)
    requires id in RowsWithout(rows, Stale(previous, ManifestOf(chunks))) && id in ListedIds(previous, Stale(previous, ManifestOf(chunks)))
    ensures !Mirrors(UpdatedRows(rows, previous, chunks, inserted), UpdatedFts(fts, previous, chunks, inserted))
  {
    FtsWithoutMembers(fts, ListedIds(previous, Stale(previous, ManifestOf(chunks))));
    FtsRowsMembers(inserted);
    TableMembers(inserted);
    assert UpdatedRows(rows, previous, chunks, inserted)[id] == rows[id];
    assert FtsOf(rows[id]) !in UpdatedFts(fts, previous, chunks, inserted);
  }

  /** A full-text row that survives its chunk is an orphan, or stands beside the new row of the same id. */
  lemma SurvivingRowIsOrphanOrDouble(rows: Rows, kept: seq<FtsRow>, inserted: seq<Chunk>, f: FtsRow)
    requires f in kept && f.id !in rows && UniqueIds(inserted)
    ensures !Mirrors(rows + Table(inserted), kept + FtsRows(inserted))
  {
    TableMembers(inserted);
    assert f in kept + FtsRows(inserted);
    if c :| c in inserted && c.id == f.id && FtsOf(c) == f {
      var i :| 0 <= i < |inserted| && inserted[i] == c;
      assert FtsRows(inserted)[i] == f;
      StandsTwice(kept, FtsRows(inserted), f);
    }
  }

  lemma StandsTwice<T>(a: seq<T>, b: seq<T>, x: T)
    requires x in a && x in b
    ensures !Unique(a + b)
  {
    var i :| 0 <= i < |a| && a[i] == x;
    var j :| 0 <= j < |b| && b[j] == x;
    assert (a + b)[i] == (a + b)[|a| + j];
  }

  /**
   From any manifest: after an update that inserts without a conflict the full-text table mirrors the
   table of chunks again exactly when the manifest lists, of the ids that have a row, just those of the
   stale files.
   */
  lemma UpdateMirrorsIffManifestListsIds(rows: Rows, fts: seq<FtsRow>, previous: Manifest, chunks: seq<Chunk>, inserted: seq<Chunk>)
    requires Mirrors(rows, fts) && Insertable(RowsWithout(rows, Stale(previous, ManifestOf(chunks))), inserted)
    ensures Mirrors(UpdatedRows(rows, previous, chunks, inserted), UpdatedFts(fts, previous, chunks, inserted))
            <==> FtsIds(rows, previous, Stale(previous, ManifestOf(chunks)))
  {
    var stale := Stale(previous, ManifestOf(chunks));
    if FtsIds(rows, previous, stale) {
      DeletesMirror(rows, fts, previous, stale);
      InsertsMirror(RowsWithout(rows, stale), FtsWithout(fts, ListedIds(previous, stale)), inserted);
    } else {
      var id :| id in rows && !(id in ListedIds(previous, stale) <==> KeyOf(rows[id]) in stale);
      if id in ListedIds(previous, stale) {
        DeletedRowIsMissed(rows, fts, previous, chunks, inserted, id);
      } else {
        FtsWithoutMembers(fts, ListedIds(previous, stale));
        SurvivingRowIsOrphanOrDouble(RowsWithout(rows, stale), FtsWithout(fts, ListedIds(previous, stale)), inserted, FtsOf(rows[id]));
      }
    }
  }

  /** So after an update from a matching manifest it always does. */
  lemma UpdateMirrors(rows: Rows, fts: seq<FtsRow>, previous: Manifest, chunks: seq<Chunk>, inserted: seq<Chunk>)
    requires Mirrors(rows, fts) && Matches(rows, previous) && UniqueIds(chunks)
    requires Inserts(chunks, Changed(previous, ManifestOf(chunks)), inserted)
    ensures Mirrors(UpdatedRows(rows, previous, chunks, inserted), UpdatedFts(fts, previous, chunks, inserted))
  {
    MatchingIsKept(rows, previous, chunks);
    NoInsertConflicts(rows, previous, chunks, inserted);
    MatchingManifestListsIds(rows, previous, Stale(previous, ManifestOf(chunks)));
    UpdateMirrorsIffManifestListsIds(rows, fts, previous, chunks, inserted);
  }

  /**
   And after one that starts from a manifest older than the table it may not: when the process ended
   between the two writes, a file the old manifest does not know keeps the full-text rows it has.
   */
  lemma AnOldManifestLeavesRowsBehind(rows: Rows, fts: seq<FtsRow>, previous: Manifest, chunks: seq<Chunk>, inserted: seq<Chunk>, c: Chunk)
    requires Mirrors(rows, fts) && Insertable(RowsWithout(rows, Stale(previous, ManifestOf(chunks))), inserted)
    requires c in chunks && KeyOf(c) !in previous && c.id in rows && KeyOf(rows[c.id]) == KeyOf(c)
    requires forall key <- previous :: forall e <- previous[key] :: e.id != c.id
    ensures !Mirrors(UpdatedRows(rows, previous, chunks, inserted), UpdatedFts(fts, previous, chunks, inserted))
  {
    ManifestMembers(chunks, KeyOf(c), EntryOf(c));
    assert KeyOf(c) in Stale(previous, ManifestOf(chunks));
    assert c.id !in ListedIds(previous, Stale(previous, ManifestOf(chunks)));
    UpdateMirrorsIffManifestListsIds(rows, fts, previous, chunks, inserted);
  }

  lemma OneChunkTables(c: Chunk)
    ensures Table([c]) == map[c.id := c] && FtsRows([c]) == [FtsOf(c)] && Mirrors(Table([c]), [FtsOf(c)])
  {
    assert [c][..|[c]| - 1] == [];
    assert Table([]) == map[] && Table([c]) == Table([])[c.id := c];
  }

  lemma NothingListed(c: Chunk)
    ensures ListedIds(map[], Stale(map[], ManifestOf([c]))) == {} && KeyOf(c) in Stale(map[], ManifestOf([c]))
  {
    assert KeyOf(c) in ManifestOf([c]);
  }

  lemma NothingKept(c: Chunk)
    ensures RowsWithout(Table([c]), Stale(map[], ManifestOf([c]))) == map[]
  {
    OneChunkTables(c);
    NothingListed(c);
  }

  lemma DoubledRows(c: Chunk)
    ensures UpdatedFts([FtsOf(c)], map[], [c], [c]) == [FtsOf(c), FtsOf(c)]
  {
    NothingListed(c);
    FtsWithoutNone([FtsOf(c)]);
    assert Mapped(FtsOf, [c]) == [FtsOf(c)];
  }

  /** The smallest case: the full-text row of a new file then stands there twice. */
  lemma AnOldManifestDoublesRows(c: Chunk)
    ensures var rows, fts, previous: Manifest := Table([c]), [FtsOf(c)], map[];
            && Mirrors(rows, fts)
            && UpdatedFts(fts, previous, [c], [c]) == [FtsOf(c), FtsOf(c)]
            && !Mirrors(UpdatedRows(rows, previous, [c], [c]), UpdatedFts(fts, previous, [c], [c]))
  {
    OneChunkTables(c);
    DoubledRows(c);
    NothingKept(c);
    assert UniqueIds([c]) && c in [c];
    AnOldManifestLeavesRowsBehind(Table([c]), [FtsOf(c)], map[], [c], [c], c);
  }

  /** The row of an unchanged file still has the displayed path of its chunk. */
  ghost predicate PathCurrent(rows: Rows, changed: set<FileKey>, c: Chunk) {
    KeyOf(c) !in changed && c.id in rows ==> rows[c.id].path == c.path
  }

  ghost predicate PathsCurrent(rows: Rows, previous: Manifest, chunks: seq<Chunk>) {
    forall c <- chunks :: PathCurrent(rows, Changed(previous, ManifestOf(chunks)), c)
  }

  lemma UpdatedPaths(rows: Rows, previous: Manifest, chunks: seq<Chunk>, inserted: seq<Chunk>)
    requires KeptMatch(rows, previous, chunks) && UniqueIds(chunks) && Inserts(chunks, Changed(previous, ManifestOf(chunks)), inserted)
    ensures UpdatedRows(rows, previous, chunks, inserted).Keys == set c | c in chunks :: c.id
    ensures (forall c <- chunks :: UpdatedRows(rows, previous, chunks, inserted)[c.id].path == c.path) <==> PathsCurrent(rows, previous, chunks)
  {
    UpdatedIds(rows, previous, chunks, inserted);
    forall c | c in chunks
      ensures UpdatedRows(rows, previous, chunks, inserted)[c.id].path == c.path <==> PathCurrent(rows, Changed(previous, ManifestOf(chunks)), c)
    {
      UpdatedRowAt(rows, previous, chunks, inserted, c);
    }
  }

  lemma FtsIffRows(rows: Rows, fts: seq<FtsRow>, chunks: seq<Chunk>)
    requires Mirrors(rows, fts) && UniqueIds(chunks) && rows.Keys == (set c | c in chunks :: c.id)
    ensures multiset(fts) == multiset(FtsRows(chunks)) <==> forall c <- chunks :: FtsOf(rows[c.id]) == FtsOf(c)
  {
    FtsRowsMembers(chunks);
    if forall c <- chunks :: FtsOf(rows[c.id]) == FtsOf(c) {
      forall f ensures f in fts <==> f in FtsRows(chunks) {
        if f in fts {
          var c :| c in chunks && c.id == f.id;
        }
      }
      SameMembersSameMultiset(fts, FtsRows(chunks));
    } else {
      var c :| c in chunks && FtsOf(rows[c.id]) != FtsOf(c);
      assert FtsOf(c) in FtsRows(chunks) && FtsOf(c) !in fts;
      assert FtsOf(c) in multiset(FtsRows(chunks)) && FtsOf(c) !in multiset(fts);
    }
  }

  lemma FtsRowIsChunkIffPathCurrent(hash: string -> string, rows: Rows, previous: Manifest, chunks: seq<Chunk>, inserted: seq<Chunk>, c: Chunk)
    requires Injective(hash) && (forall id <- rows :: Hashed(hash, rows[id])) && Hashed(hash, c)
    requires KeptMatch(rows, previous, chunks) && UniqueIds(chunks) && c in chunks
    requires Inserts(chunks, Changed(previous, ManifestOf(chunks)), inserted)
    ensures c.id in UpdatedRows(rows, previous, chunks, inserted)
    ensures FtsOf(UpdatedRows(rows, previous, chunks, inserted)[c.id]) == FtsOf(c)
            <==> PathCurrent(rows, Changed(previous, ManifestOf(chunks)), c)
  {
    UpdatedRowAt(rows, previous, chunks, inserted, c);
    if c !in inserted {
      SameContent(hash, rows[c.id], c);
    }
  }

  /** The full-text table then holds what a rebuild's would exactly when no unchanged file has a new displayed path. */
  lemma UpdatedFtsIsRebuiltIffPathsCurrent(hash: string -> string, rows: Rows, fts: seq<FtsRow>, previous: Manifest, chunks: seq<Chunk>,
                                           inserted: seq<Chunk>)
    requires Injective(hash) && (forall id <- rows :: Hashed(hash, rows[id])) && (forall c <- chunks :: Hashed(hash, c))
    requires Mirrors(rows, fts) && UniqueIds(chunks) && Inserts(chunks, Changed(previous, ManifestOf(chunks)), inserted)
    requires KeptMatch(rows, previous, chunks) && FtsIds(rows, previous, Stale(previous, ManifestOf(chunks)))
    ensures multiset(UpdatedFts(fts, previous, chunks, inserted)) == multiset(FtsRows(chunks))
            <==> forall c <- chunks :: PathCurrent(rows, Changed(previous, ManifestOf(chunks)), c)
  {
    NoInsertConflicts(rows, previous, chunks, inserted);
    UpdateMirrorsIffManifestListsIds(rows, fts, previous, chunks, inserted);
    UpdatedIds(rows, previous, chunks, inserted);
    FtsIffRows(UpdatedRows(rows, previous, chunks, inserted), UpdatedFts(fts, previous, chunks, inserted), chunks);
    forall c | c in chunks
      ensures FtsOf(UpdatedRows(rows, previous, chunks, inserted)[c.id]) == FtsOf(c)
              <==> PathCurrent(rows, Changed(previous, ManifestOf(chunks)), c)
    {
      FtsRowIsChunkIffPathCurrent(hash, rows, previous, chunks, inserted, c);
    }
  }

  ghost predicate OfUnchanged(chunks: seq<Chunk>, changed: set<FileKey>, f: FtsRow) {
    exists c :: c in chunks && KeyOf(c) !in changed && FtsOf(c) == f
  }

  /** The rows of changed files put behind others give those of all files exactly when the others are those of the unchanged files. */
  lemma FtsSplit(kept: seq<FtsRow>, chunks: seq<Chunk>, changed: set<FileKey>, inserted: seq<Chunk>)
    requires Unique(kept) && UniqueIds(chunks) && Inserts(chunks, changed, inserted)
    ensures multiset(kept + FtsRows(inserted)) == multiset(FtsRows(chunks))
            <==> (forall f <- kept :: OfUnchanged(chunks, changed, f)) && (forall c <- chunks :: KeyOf(c) !in changed ==> FtsOf(c) in kept)
  {
    FtsRowsMembers(chunks);
    FtsRowsMembers(inserted);
    if (forall f <- kept :: OfUnchanged(chunks, changed, f)) && (forall c <- chunks :: KeyOf(c) !in changed ==> FtsOf(c) in kept) {
      UnchangedAndInserted(kept, chunks, changed, inserted);
    }
    if multiset(kept + FtsRows(inserted)) == multiset(FtsRows(chunks)) {
      KeptIsUnchanged(kept, chunks, changed, inserted);
    }
  }

  lemma UnchangedAndInserted(kept: seq<FtsRow>, chunks: seq<Chunk>, changed: set<FileKey>, inserted: seq<Chunk>)
    requires Unique(kept) && UniqueIds(chunks) && Inserts(chunks, changed, inserted)
    requires (forall f <- kept :: OfUnchanged(chunks, changed, f)) && (forall c <- chunks :: KeyOf(c) !in changed ==> FtsOf(c) in kept)
    ensures multiset(kept + FtsRows(inserted)) == multiset(FtsRows(chunks))
  {
    FtsRowsMembers(chunks);
    FtsRowsMembers(inserted);
    var all := kept + FtsRows(inserted);
    forall i, j | 0 <= i < |kept| && 0 <= j < |FtsRows(inserted)| ensures kept[i] != FtsRows(inserted)[j] {
      assert kept[i] in kept && FtsRows(inserted)[j] in FtsRows(inserted);
      var c :| c in chunks && KeyOf(c) !in changed && FtsOf(c) == kept[i];
      var d :| d in inserted && FtsOf(d) == FtsRows(inserted)[j];
      if c.id == d.id {
        UniqueIdOwners(chunks, c, d);
      }
    }
    forall f ensures f in all <==> f in FtsRows(chunks) {
      if f in FtsRows(chunks) {
        var c :| c in chunks && FtsOf(c) == f;
      }
      if f in kept {
        assert OfUnchanged(chunks, changed, f);
      }
    }
    SameMembersSameMultiset(all, FtsRows(chunks));
  }

  lemma KeptIsUnchanged(kept: seq<FtsRow>, chunks: seq<Chunk>, changed: set<FileKey>, inserted: seq<Chunk>)
    requires UniqueIds(chunks) && Inserts(chunks, changed, inserted)
    requires multiset(kept + FtsRows(inserted)) == multiset(FtsRows(chunks))
    ensures (forall f <- kept :: OfUnchanged(chunks, changed, f)) && (forall c <- chunks :: KeyOf(c) !in changed ==> FtsOf(c) in kept)
  {
    FtsRowsMembers(chunks);
    FtsRowsMembers(inserted);
    var all := kept + FtsRows(inserted);
    UniquePermutation(FtsRows(chunks), all);
    forall f | f in kept ensures OfUnchanged(chunks, changed, f) {
      assert f in multiset(all);
      var c :| c in chunks && FtsOf(c) == f;
      if KeyOf(c) in changed {
        StandsTwice(kept, FtsRows(inserted), f);
      }
    }
    forall c | c in chunks && KeyOf(c) !in changed ensures FtsOf(c) in kept {
      assert FtsOf(c) in FtsRows(chunks);
      assert FtsOf(c) in multiset(all);
      UnchangedIsNotInserted(chunks, changed, inserted, c);
    }
  }

  /** Of the full-text rows, those whose ids are not listed are those of the chunks of unchanged files. */
  ghost predicate RestIsUnchanged(rows: Rows, listed: set<string>, changed: set<FileKey>, chunks: seq<Chunk>) {
    && (forall id <- rows :: id !in listed ==> OfUnchanged(chunks, changed, FtsOf(rows[id])))
    && (forall c <- chunks :: KeyOf(c) !in changed ==> c.id in rows && c.id !in listed && FtsOf(rows[c.id]) == FtsOf(c))
  }

  /** The full-text rows an update leaves alone are those of the chunks of unchanged files. */
  ghost predicate KeptFtsCurrent(rows: Rows, previous: Manifest, chunks: seq<Chunk>) {
    var desired := ManifestOf(chunks);
    RestIsUnchanged(rows, ListedIds(previous, Stale(previous, desired)), Changed(previous, desired), chunks)
  }

  lemma KeptFtsAre(rows: Rows, kept: seq<FtsRow>, listed: set<string>, changed: set<FileKey>, chunks: seq<Chunk>)
    requires RowsKeyed(rows) && forall f :: f in kept <==> f.id in rows && f.id !in listed && f == FtsOf(rows[f.id])
    ensures RestIsUnchanged(rows, listed, changed, chunks)
            <==> (forall f <- kept :: OfUnchanged(chunks, changed, f)) && (forall c <- chunks :: KeyOf(c) !in changed ==> FtsOf(c) in kept)
  {
    assert forall id <- rows :: id !in listed <==> FtsOf(rows[id]) in kept;
  }

  /** From any manifest the full-text table ends up as that of a rebuild exactly when the rows it keeps are those of the unchanged files. */
  lemma UpdatedFtsIsRebuiltIffKeptFtsCurrent(rows: Rows, fts: seq<FtsRow>, previous: Manifest, chunks: seq<Chunk>, inserted: seq<Chunk>)
    requires Mirrors(rows, fts) && UniqueIds(chunks) && Inserts(chunks, Changed(previous, ManifestOf(chunks)), inserted)
    ensures multiset(UpdatedFts(fts, previous, chunks, inserted)) == multiset(FtsRows(chunks)) <==> KeptFtsCurrent(rows, previous, chunks)
  {
    var listed := ListedIds(previous, Stale(previous, ManifestOf(chunks)));
    FtsWithoutMembers(fts, listed);
    FtsSplit(FtsWithout(fts, listed), chunks, Changed(previous, ManifestOf(chunks)), inserted);
    KeptFtsAre(rows, FtsWithout(fts, listed), listed, Changed(previous, ManifestOf(chunks)), chunks);
  }

  // ----- both tables -----

  lemma MirrorOfTable(chunks: seq<Chunk>, fts: seq<FtsRow>)
    requires UniqueIds(chunks)
    ensures Mirrors(Table(chunks), fts) <==> multiset(fts) == multiset(FtsRows(chunks))
  {
    RebuildAgrees(chunks);
    if Mirrors(Table(chunks), fts) {
      forall f ensures f in fts <==> f in FtsRows(chunks) {
      }
      SameMembersSameMultiset(fts, FtsRows(chunks));
    }
    if multiset(fts) == multiset(FtsRows(chunks)) {
      UniquePermutation(FtsRows(chunks), fts);
      forall f ensures f in fts <==> f in FtsRows(chunks) {
        assert f in multiset(fts) <==> f in multiset(FtsRows(chunks));
      }
    }
  }

  /**
   Both tables are those of a rebuild exactly when the files left alone are held as the manifest lists
   them, it lists of the ids with rows just those of the stale files, and no label is out of date.
   */
  lemma UpdateIsRebuildOfBothTables(hash: string -> string, rows: Rows, fts: seq<FtsRow>, previous: Manifest, chunks: seq<Chunk>, inserted: seq<Chunk>)
    requires Injective(hash) && (forall id <- rows :: Hashed(hash, rows[id])) && (forall c <- chunks :: Hashed(hash, c))
    requires Mirrors(rows, fts) && UniqueIds(chunks) && Inserts(chunks, Changed(previous, ManifestOf(chunks)), inserted)
    requires Insertable(RowsWithout(rows, Stale(previous, ManifestOf(chunks))), inserted)
    ensures UpdatedRows(rows, previous, chunks, inserted) == Table(chunks)
            && multiset(UpdatedFts(fts, previous, chunks, inserted)) == multiset(FtsRows(chunks))
            <==> KeptMatch(rows, previous, chunks) && FtsIds(rows, previous, Stale(previous, ManifestOf(chunks)))
                 && forall c <- chunks :: LabelCurrent(rows, Changed(previous, ManifestOf(chunks)), c)
  {
    UpdateIsRebuildIffLabelsCurrent(hash, rows, previous, chunks, inserted);
    UpdateMirrorsIffManifestListsIds(rows, fts, previous, chunks, inserted);
    MirrorOfTable(chunks, UpdatedFts(fts, previous, chunks, inserted));
  }

  // ----- what a search of the full-text table can find -----

  /** Exactly one row has the id, and it holds this path, symbol and content. */
  ghost predicate FoundOnce(fts: seq<FtsRow>, id: string, path: string, symbol: string, content: string) {
    exists i :: 0 <= i < |fts| && fts[i].id == id && fts[i].path == path && fts[i].symbol == symbol && fts[i].content == content
                && forall j :: 0 <= j < |fts| && fts[j].id == id ==> j == i
  }

  /** Each chunk is found once, with its own path, symbol and content, and nothing else is found. */
  ghost predicate TextIndexed(fts: seq<FtsRow>, chunks: seq<Chunk>) {
    && (forall c <- chunks :: FoundOnce(fts, c.id, c.path, c.symbol, c.content))
    && forall f <- fts :: exists c :: c in chunks && f.id == c.id && f.path == c.path && f.symbol == c.symbol && f.content == c.content
  }

  /** The same but for the path, which is that of the chunk's row. */
  ghost predicate TextIndexedUnder(rows: Rows, fts: seq<FtsRow>, chunks: seq<Chunk>) {
    && (forall c <- chunks :: c.id in rows && FoundOnce(fts, c.id, rows[c.id].path, c.symbol, c.content))
    && forall f <- fts :: exists c :: c in chunks && f.id == c.id && f.symbol == c.symbol && f.content == c.content
  }

  lemma MirroredRowIsFound(rows: Rows, fts: seq<FtsRow>, id: string)
    requires Mirrors(rows, fts) && id in rows
    ensures FoundOnce(fts, id, rows[id].path, rows[id].symbol, rows[id].content)
  {
    var i :| 0 <= i < |fts| && fts[i] == FtsOf(rows[id]);
    forall j | 0 <= j < |fts| && fts[j].id == id ensures j == i {
      assert fts[j] in fts && fts[j] == FtsOf(rows[id]);
    }
  }

  /** A right table with its mirror: all text can be found, under the chunks' paths exactly when the rows have these. */
  lemma MirrorsFindText(rows: Rows, fts: seq<FtsRow>, chunks: seq<Chunk>)
    requires Agrees(rows, chunks) && Mirrors(rows, fts)
    ensures TextIndexedUnder(rows, fts, chunks)
    ensures TextIndexed(fts, chunks) <==> forall c <- chunks :: rows[c.id].path == c.path
  {
    forall c | c in chunks ensures FoundOnce(fts, c.id, rows[c.id].path, c.symbol, c.content) {
      MirroredRowIsFound(rows, fts, c.id);
      assert SameEntry(rows[c.id], c);
    }
    forall f | f in fts ensures exists c :: c in chunks && f.id == c.id && f.path == rows[c.id].path && f.symbol == c.symbol && f.content == c.content {
      var c :| c in chunks && c.id == f.id;
      assert SameEntry(rows[c.id], c);
    }
    if TextIndexed(fts, chunks) {
      forall c | c in chunks ensures rows[c.id].path == c.path {
        FoundUnderOnePath(fts, c.id, c.path, rows[c.id].path, c.symbol, c.content);
      }
    }
  }

  lemma FoundUnderOnePath(fts: seq<FtsRow>, id: string, path: string, other: string, symbol: string, content: string)
    requires FoundOnce(fts, id, path, symbol, content) && FoundOnce(fts, id, other, symbol, content)
    ensures path == other
  {
  }

  /** What an insert stores: each chunk's text in a row of its own, behind what was there. */
  ghost predicate TextAppended(before: seq<FtsRow>, after: seq<FtsRow>, chunks: seq<Chunk>) {
    && |after| == |before| + |chunks| && after[..|before|] == before
    && forall i :: 0 <= i < |chunks| ==>
         var f := after[|before| + i];
         f.id == chunks[i].id && f.path == chunks[i].path && f.symbol == chunks[i].symbol && f.content == chunks[i].content
  }

  lemma AppendedText(before: seq<FtsRow>, chunks: seq<Chunk>)
    ensures TextAppended(before, before + FtsRows(chunks), chunks)
  {
    forall i | 0 <= i < |chunks| ensures (before + FtsRows(chunks))[|before| + i] == FtsOf(chunks[i]) {
    }
  }

  // ----- after a crash between the two writes -----

  ghost predicate SameFile(a: Manifest, b: Manifest, key: FileKey) {
    (key in a <==> key in b) && (key in a ==> a[key] == b[key])
  }

  lemma StaleIsNotSame(previous: Manifest, desired: Manifest, key: FileKey)
    ensures key in Stale(previous, desired) <==> !SameFile(previous, desired, key)
  {
  }

  lemma EntryLessIsTotal()
    ensures StrictWeakOrder(EntryLess)
    ensures forall a: Entry, b: Entry :: a.id == b.id || EntryLess(a, b) || EntryLess(b, a)
  {
    forall a: Entry, b: Entry ensures !(EntryLess(a, b) && EntryLess(b, a)) && (a.id == b.id || EntryLess(a, b) || EntryLess(b, a)) {
      StringLessIsTotal(a.id, b.id);
    }
    forall a: Entry, b: Entry, c: Entry | EntryLess(a, c) ensures EntryLess(a, b) || EntryLess(b, c) {
      if a.lineStart == c.lineStart {
        StringLessSplits(a.id, b.id, c.id);
      }
    }
  }

  /** Chunks of distinct ids with the same entries have the same signature, in whatever order they come. */
  lemma SameEntriesSameSignature(a: seq<Chunk>, b: seq<Chunk>)
    requires UniqueIds(a) && UniqueIds(b) && forall e :: e in Signature(a) <==> e in Signature(b)
    ensures Signature(a) == Signature(b)
  {
    SignatureIsSorted(a);
    SignatureIsSorted(b);
    SameMembersSameMultiset(Signature(a), Signature(b));
    SortedPermutationsAgree(Signature(a), Signature(b), EntryLess);
  }

  lemma SignatureIsSorted(chunks: seq<Chunk>)
    requires UniqueIds(chunks)
    ensures Sorted(Signature(chunks), EntryLess) && Unique(Signature(chunks)) && Tells(Signature(chunks), EntryLess)
  {
    var es := Mapped(EntryOf, chunks);
    EntryLessIsTotal();
    SortSorts(es, EntryLess);
    EntriesOfUnique(chunks);
    UniquePermutation(es, Signature(chunks));
    SortedMembers(es, EntryLess);
    EntriesTell(es, Signature(chunks));
  }

  lemma EntriesOfUnique(chunks: seq<Chunk>)
    requires UniqueIds(chunks)
    ensures var es := Mapped(EntryOf, chunks); Unique(es) && forall i, j :: 0 <= i < |es| && 0 <= j < |es| && es[i].id == es[j].id ==> i == j
  {
    var es := Mapped(EntryOf, chunks);
    forall i | 0 <= i < |es| ensures es[i].id == chunks[i].id {
      assert es[i] == EntryOf(chunks[i]);
    }
  }

  /** Entries of distinct ids are told apart by their order. */
  lemma EntriesTell(es: seq<Entry>, sorted: seq<Entry>)
    requires forall e :: e in sorted <==> e in es
    requires forall i, j :: 0 <= i < |es| && 0 <= j < |es| && es[i].id == es[j].id ==> i == j
    ensures Tells(sorted, EntryLess)
  {
    EntryLessIsTotal();
    forall i, j | 0 <= i < j < |sorted| && sorted[i] != sorted[j] ensures EntryLess(sorted[i], sorted[j]) || EntryLess(sorted[j], sorted[i]) {
      assert sorted[i] in es && sorted[j] in es;
      var k :| 0 <= k < |es| && es[k] == sorted[i];
      var l :| 0 <= l < |es| && es[l] == sorted[j];
    }
  }

  lemma SameEntriesSameFile(a: seq<Chunk>, b: seq<Chunk>, key: FileKey)
    requires UniqueIds(a) && UniqueIds(b)
    requires forall e :: (key in ManifestOf(a) && e in ManifestOf(a)[key]) <==> (key in ManifestOf(b) && e in ManifestOf(b)[key])
    ensures SameFile(ManifestOf(a), ManifestOf(b), key)
  {
    FileIsListed(a, b, key);
    FileIsListed(b, a, key);
    if key in ManifestOf(a) {
      FileRowsUnique(a, key);
      FileRowsUnique(b, key);
      SameEntriesSameSignature(FileRows(a, key), FileRows(b, key));
    }
  }

  lemma FileIsListed(a: seq<Chunk>, b: seq<Chunk>, key: FileKey)
    requires forall e :: (key in ManifestOf(a) && e in ManifestOf(a)[key]) ==> (key in ManifestOf(b) && e in ManifestOf(b)[key])
    ensures key in ManifestOf(a) ==> key in ManifestOf(b)
  {
    if key in ManifestOf(a) {
      var c :| c in a && KeyOf(c) == key;
      ManifestMembers(a, key, EntryOf(c));
    }
  }

  /**
   When the process ended between the two writes, the manifest lists the chunks before and the table holds
   those written.  The next update then ends in the table of a rebuild exactly when no file was changed
   back: each file that is again as the manifest lists it is also as the table holds it.
   */
  lemma UpdateAfterCrashAgreesIffNothingWentBack(hash: string -> string, rows: Rows, before: seq<Chunk>, written: seq<Chunk>, chunks: seq<Chunk>,
                                                 inserted: seq<Chunk>)
    requires Injective(hash) && (forall id <- rows :: Hashed(hash, rows[id])) && (forall c <- chunks :: Hashed(hash, c))
    requires RowsKeyed(rows) && Agrees(rows, written) && UniqueIds(written) && UniqueIds(chunks)
    requires Inserts(chunks, Changed(ManifestOf(before), ManifestOf(chunks)), inserted)
    requires Insertable(RowsWithout(rows, Stale(ManifestOf(before), ManifestOf(chunks))), inserted)
    ensures Agrees(UpdatedRows(rows, ManifestOf(before), chunks, inserted), chunks)
            <==> forall key :: SameFile(ManifestOf(before), ManifestOf(chunks), key) ==> SameFile(ManifestOf(written), ManifestOf(chunks), key)
  {
    UpdateAgreesIffKeptMatch(hash, rows, ManifestOf(before), chunks, inserted);
    AgreeingTableMatches(rows, written);
    var previous, held, desired := ManifestOf(before), ManifestOf(written), ManifestOf(chunks);
    if KeptMatch(rows, previous, chunks) {
      forall key | SameFile(previous, desired, key) ensures SameFile(held, desired, key) {
        KeptFileIsHeld(rows, previous, written, chunks, key);
      }
    }
    if forall key :: SameFile(previous, desired, key) ==> SameFile(held, desired, key) {
      HeldFilesAreKept(rows, previous, written, chunks);
    }
  }

  lemma KeptFileIsHeld(rows: Rows, previous: Manifest, written: seq<Chunk>, chunks: seq<Chunk>, key: FileKey)
    requires KeptMatch(rows, previous, chunks) && Matches(rows, ManifestOf(written)) && UniqueIds(written) && UniqueIds(chunks)
    requires SameFile(previous, ManifestOf(chunks), key)
    ensures SameFile(ManifestOf(written), ManifestOf(chunks), key)
  {
    var held, desired := ManifestOf(written), ManifestOf(chunks);
    StaleIsNotSame(previous, desired, key);
    forall e ensures key in held && e in held[key] <==> key in desired && e in desired[key] {
      KeptEntryIsHeld(rows, previous, held, desired, key, e);
    }
    SameEntriesSameFile(written, chunks, key);
  }

  lemma KeptEntryIsHeld(rows: Rows, previous: Manifest, held: Manifest, desired: Manifest, key: FileKey, e: Entry)
    requires Matches(rows, held) && SameFile(previous, desired, key)
    requires Matches(RowsWithout(rows, Stale(previous, desired)), previous - Stale(previous, desired))
    ensures key in held && e in held[key] <==> key in desired && e in desired[key]
  {
    var stale := Stale(previous, desired);
    StaleIsNotSame(previous, desired, key);
    if key in held && e in held[key] {
      assert e.id in RowsWithout(rows, stale);
      assert key in previous - stale;
    }
    if key in desired && e in desired[key] {
      assert key in previous - stale && e in (previous - stale)[key];
      assert e.id in RowsWithout(rows, stale) && KeyOf(rows[e.id]) == key && EntryOf(rows[e.id]) == e;
    }
  }

  lemma HeldFilesAreKept(rows: Rows, previous: Manifest, written: seq<Chunk>, chunks: seq<Chunk>)
    requires Matches(rows, ManifestOf(written))
    requires forall key :: SameFile(previous, ManifestOf(chunks), key) ==> SameFile(ManifestOf(written), ManifestOf(chunks), key)
    ensures KeptMatch(rows, previous, chunks)
  {
    var held, desired := ManifestOf(written), ManifestOf(chunks);
    var stale := Stale(previous, desired);
    var kept, listed := RowsWithout(rows, stale), previous - stale;
    forall key | key !in stale ensures SameFile(previous, held, key) {
      StaleIsNotSame(previous, desired, key);
      assert SameFile(held, desired, key);
    }
    forall id | id in kept ensures kept[id].id == id && KeyOf(kept[id]) in listed && EntryOf(kept[id]) in listed[KeyOf(kept[id])] {
      assert SameFile(previous, held, KeyOf(rows[id])) && KeyOf(rows[id]) in held;
    }
    forall key: FileKey, e: Entry | key in listed && e in listed[key]
      ensures e.id in kept && KeyOf(kept[e.id]) == key && EntryOf(kept[e.id]) == e
    {
      assert SameFile(previous, held, key) && e in held[key];
    }
  }

  /**
   The smallest case: a crash leaves the table with a file's new chunk and the manifest with its old one;
   the file is changed back and the update, finding nothing stale, keeps the wrong row.
   */
  lemma ARevertedFileKeepsItsRow(c0: Chunk, c1: Chunk)
    requires KeyOf(c0) == KeyOf(c1) && c0.id != c1.id
    ensures var rows, fts, previous := Table([c1]), [FtsOf(c1)], ManifestOf([c0]);
            && Mirrors(rows, fts) && Stale(previous, ManifestOf([c0])) == {}
            && UpdatedRows(rows, previous, [c0], []) == rows && !Agrees(rows, [c0])
            && FtsIds(rows, previous, {}) && (forall c <- [c0] :: LabelCurrent(rows, {}, c))
            && !KeptMatch(rows, previous, [c0])
  {
    OneChunkTables(c1);
    UpdatedByNothing(Table([c1]), ManifestOf([c0]), [c0]);
    assert c0 in [c0];
    ManifestMembers([c0], KeyOf(c0), EntryOf(c0));
  }

  // ----- the database -----

  function IdSet(ids: seq<string>): set<string> {
    set id | id in ids
  }

  function InsertedFrom(chunks: seq<Chunk>, keys: seq<FileKey>): seq<Chunk> {
    if keys == [] then [] else InsertedFrom(chunks, keys[..|keys| - 1]) + FileRows(chunks, keys[|keys| - 1])
  }

  lemma {:induction false} TableSum(a: seq<Chunk>, b: seq<Chunk>)
    ensures Table(a + b) == Table(a) + Table(b)
  {
    if b == [] {
      assert a + b == a;
    } else {
      assert (a + b)[..|a + b| - 1] == a + b[..|b| - 1];
      TableSum(a, b[..|b| - 1]);
    }
  }

  lemma TableOneMore(rows: Rows, fts: seq<FtsRow>, chunks: seq<Chunk>, i: nat)
    requires i < |chunks|
    ensures rows + Table(chunks[..i + 1]) == (rows + Table(chunks[..i]))[chunks[i].id := chunks[i]]
    ensures fts + FtsRows(chunks[..i + 1]) == fts + FtsRows(chunks[..i]) + [FtsOf(chunks[i])]
  {
    assert chunks[..i + 1][..i] == chunks[..i];
    assert chunks[..i + 1] == chunks[..i] + [chunks[i]];
    MappedSum(FtsOf, chunks[..i], [chunks[i]]);
    assert Mapped(FtsOf, [chunks[i]]) == [FtsOf(chunks[i])];
  }

  lemma NoChunks(rows: Rows, fts: seq<FtsRow>, chunks: seq<Chunk>)
    ensures rows + Table(chunks[..0]) == rows && fts + FtsRows(chunks[..0]) == fts && Insertable(rows, chunks[..0])
  {
  }

  lemma TakenIdIsNotInsertable(rows: Rows, chunks: seq<Chunk>, i: nat)
    requires i < |chunks| && UniqueIds(chunks[..i]) && chunks[i].id in rows + Table(chunks[..i])
    ensures !Insertable(rows, chunks)
  {
    TableMembers(chunks[..i]);
    if chunks[i].id in Table(chunks[..i]) {
      var c :| c in chunks[..i] && c.id == chunks[i].id;
      var j :| 0 <= j < i && chunks[..i][j] == c;
      assert chunks[j].id == chunks[i].id;
    } else {
      assert chunks[i] in chunks;
    }
  }

  lemma InsertableOneMore(rows: Rows, chunks: seq<Chunk>, i: nat)
    requires i < |chunks| && Insertable(rows, chunks[..i]) && chunks[i].id !in rows + Table(chunks[..i])
    ensures Insertable(rows, chunks[..i + 1])
  {
    TableMembers(chunks[..i]);
    assert chunks[..i + 1] == chunks[..i] + [chunks[i]];
    forall j | 0 <= j < i ensures chunks[..i][j].id != chunks[i].id {
      assert chunks[..i][j] in chunks[..i];
    }
  }

  lemma PrefixInsertable(rows: Rows, chunks: seq<Chunk>, i: nat)
    requires i <= |chunks| && Insertable(rows, chunks)
    ensures Insertable(rows, chunks[..i])
  {
    forall c | c in chunks[..i] ensures c in chunks {
    }
  }

  class LexicalDatabase {
    var rows: Rows
    var fts: seq<FtsRow>

    /** Inserts into both tables; a taken id raises, and the transaction around it leaves nothing of this behind. */
    method InsertLexicalChunks(chunks: seq<Chunk>) returns (ok: bool)
      modifies this
      ensures ok <==> Insertable(old(rows), chunks)
      ensures ok ==> rows == old(rows) + Table(chunks) && fts == old(fts) + FtsRows(chunks)
      ensures ok ==> TextAppended(old(fts), fts, chunks)
    {
      AppendedText(fts, chunks);
      NoChunks(rows, fts, chunks);
      for i := 0 to |chunks|
        invariant Insertable(old(rows), chunks[..i])
        invariant rows == old(rows) + Table(chunks[..i]) && fts == old(fts) + FtsRows(chunks[..i])
      {
        var chunk := chunks[i];
        if chunk.id in rows {
          TakenIdIsNotInsertable(old(rows), chunks, i);
          return false;
        }
        TableOneMore(old(rows), old(fts), chunks, i);
        InsertableOneMore(old(rows), chunks, i);
        rows := rows[chunk.id := chunk];
        fts := fts + [FtsOf(chunk)];
      }
      assert chunks[..|chunks|] == chunks;
      return true;
    }

    /** Deletes full-text rows by id, so many ids to a statement. */
    method DeleteLexicalFtsChunkIds(ids: seq<string>, batchSize: nat)
      requires batchSize >= 1
      modifies this`fts
      ensures fts == FtsWithout(old(fts), IdSet(ids))
    {
      FtsWithoutNone(fts);
      assert IdSet(ids[..0]) == {};
      var start := 0;
      while start < |ids|
        invariant start <= |ids| && fts == FtsWithout(old(fts), IdSet(ids[..start]))
      {
        var stop := if start + batchSize < |ids| then start + batchSize else |ids|;
        FtsWithoutTwice(old(fts), IdSet(ids[..start]), IdSet(ids[start..stop]));
        assert ids[..stop] == ids[..start] + ids[start..stop];
        assert IdSet(ids[..stop]) == IdSet(ids[..start]) + IdSet(ids[start..stop]);
        fts := FtsWithout(fts, IdSet(ids[start..stop]));
        start := stop;
      }
      assert ids[..start] == ids;
    }

    /** Takes a file out: its full-text rows by the ids the manifest lists, its rows by their file. */
    method DeleteFile(previous: Manifest, key: FileKey)
      modifies this
      ensures rows == RowsWithout(old(rows), {key}) && fts == FtsWithout(old(fts), ListedIds(previous, {key}))
    {
      FtsWithoutNone(fts);
      var entries := if key in previous then previous[key] else [];
      var ids := Mapped((e: Entry) => e.id, entries);
      EntryIds(previous, key);
      assert ids == [] ==> IdSet(ids) == {};
      if ids != [] {
        DeleteLexicalFtsChunkIds(ids, 128);
      }
      rows := RowsWithout(rows, {key});
    }

    method DeleteFiles(previous: Manifest, keys: seq<FileKey>)
      modifies this
      ensures rows == RowsWithout(old(rows), KeySet(keys)) && fts == FtsWithout(old(fts), ListedIds(previous, KeySet(keys)))
    {
      NothingDeleted(rows, fts, previous);
      for i := 0 to |keys|
        invariant rows == RowsWithout(old(rows), KeySet(keys[..i])) && fts == FtsWithout(old(fts), ListedIds(previous, KeySet(keys[..i])))
      {
        DeleteFile(previous, keys[i]);
        DeletedOneMore(old(rows), old(fts), previous, keys, i);
      }
      assert keys[..|keys|] == keys;
    }

    method InsertFiles(chunks: seq<Chunk>, keys: seq<FileKey>) returns (ok: bool)
      modifies this
      ensures ok ==> rows == old(rows) + Table(InsertedFrom(chunks, keys)) && fts == old(fts) + FtsRows(InsertedFrom(chunks, keys))
      ensures ok <==> Insertable(old(rows), InsertedFrom(chunks, keys))
    {
      var byFile := GroupByFile(chunks);
      for i := 0 to |keys|
        invariant rows == old(rows) + Table(InsertedFrom(chunks, keys[..i])) && fts == old(fts) + FtsRows(InsertedFrom(chunks, keys[..i]))
        invariant Insertable(old(rows), InsertedFrom(chunks, keys[..i]))
      {
        InsertedOneMore(old(rows), old(fts), chunks, keys, i);
        NextFileInsertable(old(rows), chunks, keys, i);
        ok := InsertLexicalChunks(if keys[i] in byFile then byFile[keys[i]] else []);
        if !ok {
          return;
        }
      }
      assert keys[..|keys|] == keys;
      return true;
    }

    /** Brings the tables up to date with the chunks: all deletes first, then the inserts. */
    method UpdateFiles(previous: Manifest, chunks: seq<Chunk>) returns (ok: bool, ghost inserted: seq<Chunk>)
      modifies this
      ensures UniqueIds(chunks) ==> Inserts(chunks, Changed(previous, ManifestOf(chunks)), inserted)
      ensures ok ==> rows == UpdatedRows(old(rows), previous, chunks, inserted)
      ensures ok ==> fts == UpdatedFts(old(fts), previous, chunks, inserted)
      ensures ok <==> Insertable(RowsWithout(old(rows), Stale(previous, ManifestOf(chunks))), inserted)
      ensures KeptMatch(old(rows), previous, chunks) && UniqueIds(chunks) ==> ok
    {
      var desired := ManifestOf(chunks);
      var stale := SortedKeys(Stale(previous, desired));
      var changed := SortedKeys(Changed(previous, desired));
      inserted := InsertedFrom(chunks, changed);
      DeleteFiles(previous, stale);
      if UniqueIds(chunks) {
        InsertedAreInserts(chunks, changed);
        if KeptMatch(old(rows), previous, chunks) {
          NoInsertConflicts(old(rows), previous, chunks, inserted);
        }
      }
      ok := InsertFiles(chunks, changed);
    }

    method Rebuild(chunks: seq<Chunk>) returns (ok: bool)
      modifies this
      ensures ok <==> UniqueIds(chunks)
      ensures ok ==> rows == Table(chunks) && fts == FtsRows(chunks) && TextIndexed(fts, chunks)
    {
      rows, fts := map[], [];
      ok := InsertLexicalChunks(chunks);
      if ok {
        RebuiltTextIsIndexed(chunks);
      }
      assert map[] + Table(chunks) == Table(chunks) && [] + FtsRows(chunks) == FtsRows(chunks);
    }

    /**
     Brings the index up to date from whatever manifest is there, one left by a crash included: by an
     update when the schema is the current one and nothing conflicts, and else by a rebuild.
     */
    method EnsureLexicalIndex(ghost hash: string -> string, previous: Manifest, chunks: seq<Chunk>, validSchema: bool) returns (ok: bool)
      requires RowsKeyed(rows) && AllHashed(hash, rows, chunks)
      modifies this
      ensures UniqueIds(chunks) ==>
        ok && Ends(hash, old(rows), old(fts), previous, chunks, Rebuilds(old(rows), previous, chunks, validSchema), rows, fts)
    {
      var desired := ManifestOf(chunks);
      if Stale(previous, desired) == {} && previous.Keys == desired.Keys {
        if UniqueIds(chunks) {
          NothingStaleEnds(hash, rows, fts, previous, chunks);
        }
        return true;
      }
      ok := UpdateOrRebuild(hash, previous, chunks, validSchema);
    }

    method UpdateOrRebuild(ghost hash: string -> string, previous: Manifest, chunks: seq<Chunk>, validSchema: bool) returns (ok: bool)
      requires RowsKeyed(rows) && AllHashed(hash, rows, chunks) && Stale(previous, ManifestOf(chunks)) != {}
      modifies this
      ensures UniqueIds(chunks) ==>
        ok && Ends(hash, old(rows), old(fts), previous, chunks, Rebuilds(old(rows), previous, chunks, validSchema), rows, fts)
    {
      ok := false;
      if validSchema {
        ghost var inserted;
        ok, inserted := UpdateFiles(previous, chunks);
        if UniqueIds(chunks) {
          ConflictIsNotInsertable(old(rows), previous, chunks, inserted);
          if ok {
            UpdateEnds(hash, old(rows), old(fts), previous, chunks, inserted);
          }
        }
      }
      if !ok {
        ok := Rebuild(chunks);
        if ok {
          RebuildEnds(hash, old(rows), old(fts), previous, chunks);
        }
      }
    }
  }

  ghost predicate AllHashed(hash: string -> string, rows: Rows, chunks: seq<Chunk>) {
    Injective(hash) && (forall id <- rows :: Hashed(hash, rows[id])) && forall c <- chunks :: Hashed(hash, c)
  }

  /** The tables match each other and a manifest. */
  ghost predicate Current(rows: Rows, fts: seq<FtsRow>, manifest: Manifest) {
    Mirrors(rows, fts) && Matches(rows, manifest)
  }

  /**
   What bringing the index up to date comes to.  The chunk table ends up right exactly after a rebuild or
   when the files left alone were held as listed; the full-text table mirrors it exactly after a rebuild
   or when the manifest listed the stale files' ids; and tables that matched their manifest end up right
   and matching the new one.  With both right every chunk's text can be found once, and nothing else, under
   the chunks' own paths exactly after a rebuild or when no unchanged file has a new one.
   */
  ghost predicate Ends(hash: string -> string, rows: Rows, fts: seq<FtsRow>, previous: Manifest, chunks: seq<Chunk>, rebuilt: bool,
                       rows': Rows, fts': seq<FtsRow>)
  {
    && RowsKeyed(rows') && AllHashed(hash, rows', chunks)
    && (Agrees(rows', chunks) <==> rebuilt || KeptMatch(rows, previous, chunks))
    && (Mirrors(rows, fts) ==> (Mirrors(rows', fts') <==> rebuilt || FtsIds(rows, previous, Stale(previous, ManifestOf(chunks)))))
    && (Current(rows, fts, previous) || rebuilt ==> Agrees(rows', chunks) && Current(rows', fts', ManifestOf(chunks)))
    && (Agrees(rows', chunks) && Mirrors(rows', fts') ==>
          && TextIndexedUnder(rows', fts', chunks)
          && (TextIndexed(fts', chunks) <==> rebuilt || PathsCurrent(rows, previous, chunks)))
  }

  /** A chunk of a changed file has an id that a row of an unchanged one holds. */
  ghost predicate Conflicts(rows: Rows, previous: Manifest, chunks: seq<Chunk>) {
    exists c :: c in chunks && KeyOf(c) in Changed(previous, ManifestOf(chunks)) && c.id in RowsWithout(rows, Stale(previous, ManifestOf(chunks)))
  }

  ghost predicate Rebuilds(rows: Rows, previous: Manifest, chunks: seq<Chunk>, validSchema: bool) {
    Stale(previous, ManifestOf(chunks)) != {} && (!validSchema || Conflicts(rows, previous, chunks))
  }

  lemma ConflictIsNotInsertable(rows: Rows, previous: Manifest, chunks: seq<Chunk>, inserted: seq<Chunk>)
    requires Inserts(chunks, Changed(previous, ManifestOf(chunks)), inserted)
    ensures Conflicts(rows, previous, chunks) <==> !Insertable(RowsWithout(rows, Stale(previous, ManifestOf(chunks))), inserted)
  {
  }

  lemma CurrentIsKept(rows: Rows, fts: seq<FtsRow>, previous: Manifest, chunks: seq<Chunk>)
    requires Current(rows, fts, previous)
    ensures KeptMatch(rows, previous, chunks) && FtsIds(rows, previous, Stale(previous, ManifestOf(chunks)))
  {
    MatchingIsKept(rows, previous, chunks);
    MatchingManifestListsIds(rows, previous, Stale(previous, ManifestOf(chunks)));
  }

  lemma UpdateEnds(hash: string -> string, rows: Rows, fts: seq<FtsRow>, previous: Manifest, chunks: seq<Chunk>, inserted: seq<Chunk>)
    requires AllHashed(hash, rows, chunks) && RowsKeyed(rows) && UniqueIds(chunks)
    requires Inserts(chunks, Changed(previous, ManifestOf(chunks)), inserted)
    requires Insertable(RowsWithout(rows, Stale(previous, ManifestOf(chunks))), inserted)
    ensures Ends(hash, rows, fts, previous, chunks, false, UpdatedRows(rows, previous, chunks, inserted), UpdatedFts(fts, previous, chunks, inserted))
  {
    var rows', fts' := UpdatedRows(rows, previous, chunks, inserted), UpdatedFts(fts, previous, chunks, inserted);
    UpdatedKeyed(hash, rows, previous, chunks, inserted);
    UpdateAgreesIffKeptMatch(hash, rows, previous, chunks, inserted);
    if Mirrors(rows, fts) {
      UpdateMirrorsIffManifestListsIds(rows, fts, previous, chunks, inserted);
    }
    if Current(rows, fts, previous) {
      CurrentIsKept(rows, fts, previous, chunks);
      AgreeingTableMatches(rows', chunks);
    }
    if Agrees(rows', chunks) && Mirrors(rows', fts') {
      UpdatedText(rows, previous, chunks, inserted, fts');
    }
  }

  lemma UpdatedText(rows: Rows, previous: Manifest, chunks: seq<Chunk>, inserted: seq<Chunk>, fts': seq<FtsRow>)
    requires KeptMatch(rows, previous, chunks) && UniqueIds(chunks) && Inserts(chunks, Changed(previous, ManifestOf(chunks)), inserted)
    requires var rows' := UpdatedRows(rows, previous, chunks, inserted); Agrees(rows', chunks) && Mirrors(rows', fts')
    ensures TextIndexedUnder(UpdatedRows(rows, previous, chunks, inserted), fts', chunks)
    ensures TextIndexed(fts', chunks) <==> PathsCurrent(rows, previous, chunks)
  {
    MirrorsFindText(UpdatedRows(rows, previous, chunks, inserted), fts', chunks);
    UpdatedPaths(rows, previous, chunks, inserted);
  }

  lemma UpdatedKeyed(hash: string -> string, rows: Rows, previous: Manifest, chunks: seq<Chunk>, inserted: seq<Chunk>)
    requires AllHashed(hash, rows, chunks) && RowsKeyed(rows) && Inserts(chunks, Changed(previous, ManifestOf(chunks)), inserted)
    ensures var rows' := UpdatedRows(rows, previous, chunks, inserted); RowsKeyed(rows') && AllHashed(hash, rows', chunks)
  {
    TableMembers(inserted);
    var rows' := UpdatedRows(rows, previous, chunks, inserted);
    forall id | id in rows' ensures rows'[id].id == id && Hashed(hash, rows'[id]) {
      if id in Table(inserted) {
        var c :| c in inserted && c.id == id;
      }
    }
  }

  lemma RebuildEnds(hash: string -> string, rows: Rows, fts: seq<FtsRow>, previous: Manifest, chunks: seq<Chunk>)
    requires AllHashed(hash, rows, chunks) && UniqueIds(chunks)
    ensures Ends(hash, rows, fts, previous, chunks, true, Table(chunks), FtsRows(chunks))
  {
    RebuildAgrees(chunks);
    AgreeingTableMatches(Table(chunks), chunks);
    TableMembers(chunks);
    RebuiltTextIsIndexed(chunks);
    MirrorsFindText(Table(chunks), FtsRows(chunks), chunks);
  }

  lemma NothingStaleEnds(hash: string -> string, rows: Rows, fts: seq<FtsRow>, previous: Manifest, chunks: seq<Chunk>)
    requires AllHashed(hash, rows, chunks) && RowsKeyed(rows) && UniqueIds(chunks) && Stale(previous, ManifestOf(chunks)) == {}
    ensures Ends(hash, rows, fts, previous, chunks, false, rows, fts)
  {
    UpdatedByNothing(rows, previous, chunks);
    UpdateAgreesIffKeptMatch(hash, rows, previous, chunks, []);
    if Current(rows, fts, previous) {
      CurrentIsKept(rows, fts, previous, chunks);
      AgreeingTableMatches(rows, chunks);
    }
    if Agrees(rows, chunks) && Mirrors(rows, fts) {
      UpdatedText(rows, previous, chunks, [], fts);
    }
  }

  lemma UpdatedByNothing(rows: Rows, previous: Manifest, chunks: seq<Chunk>)
    requires Stale(previous, ManifestOf(chunks)) == {}
    ensures UpdatedRows(rows, previous, chunks, []) == rows && Inserts(chunks, Changed(previous, ManifestOf(chunks)), [])
  {
    var changed := Changed(previous, ManifestOf(chunks));
    assert changed <= Stale(previous, ManifestOf(chunks));
    assert RowsWithout(rows, {}) == rows;
  }

  lemma RebuildAgrees(chunks: seq<Chunk>)
    requires UniqueIds(chunks)
    ensures Agrees(Table(chunks), chunks) && Mirrors(Table(chunks), FtsRows(chunks))
  {
    TableMembers(chunks);
    TableMirrors(chunks);
  }

  lemma RebuiltTextIsIndexed(chunks: seq<Chunk>)
    requires UniqueIds(chunks)
    ensures TextIndexed(FtsRows(chunks), chunks)
  {
    RebuildAgrees(chunks);
    TableMembers(chunks);
    MirrorsFindText(Table(chunks), FtsRows(chunks), chunks);
  }

  lemma TableMirrors(chunks: seq<Chunk>)
    requires UniqueIds(chunks)
    ensures Mirrors(Table(chunks), FtsRows(chunks))
  {
    InsertsMirror(map[], [], chunks);
    assert map[] + Table(chunks) == Table(chunks);
    assert [] + FtsRows(chunks) == FtsRows(chunks);
  }

  function KeySet(keys: seq<FileKey>): set<FileKey> {
    set key | key in keys
  }

  lemma {:induction false} FtsWithoutNone(fts: seq<FtsRow>)
    ensures FtsWithout(fts, {}) == fts
  {
    if fts != [] {
      FtsWithoutNone(fts[..|fts| - 1]);
    }
  }

  lemma EntryIds(previous: Manifest, key: FileKey)
    ensures var entries := if key in previous then previous[key] else [];
            IdSet(Mapped((e: Entry) => e.id, entries)) == ListedIds(previous, {key})
  {
    var entries := if key in previous then previous[key] else [];
    var ids := Mapped((e: Entry) => e.id, entries);
    forall id | id in ids ensures id in ListedIds(previous, {key}) {
      var i :| 0 <= i < |ids| && ids[i] == id;
      assert entries[i] in entries;
    }
    forall id | id in ListedIds(previous, {key}) ensures id in ids {
      var e :| e in entries && e.id == id;
      var i :| 0 <= i < |entries| && entries[i] == e;
      assert ids[i] == id;
    }
  }

  lemma NothingDeleted(rows: Rows, fts: seq<FtsRow>, previous: Manifest)
    ensures RowsWithout(rows, {}) == rows && FtsWithout(fts, ListedIds(previous, {})) == fts && KeySet([]) == {}
  {
    FtsWithoutNone(fts);
  }

  lemma DeletedOneMore(rows: Rows, fts: seq<FtsRow>, previous: Manifest, keys: seq<FileKey>, i: nat)
    requires i < |keys|
    ensures RowsWithout(RowsWithout(rows, KeySet(keys[..i])), {keys[i]}) == RowsWithout(rows, KeySet(keys[..i + 1]))
    ensures FtsWithout(FtsWithout(fts, ListedIds(previous, KeySet(keys[..i]))), ListedIds(previous, {keys[i]}))
            == FtsWithout(fts, ListedIds(previous, KeySet(keys[..i + 1])))
  {
    assert keys[..i + 1] == keys[..i] + [keys[i]];
    assert KeySet(keys[..i + 1]) == KeySet(keys[..i]) + {keys[i]};
    FtsWithoutTwice(fts, ListedIds(previous, KeySet(keys[..i])), ListedIds(previous, {keys[i]}));
    assert ListedIds(previous, KeySet(keys[..i + 1])) == ListedIds(previous, KeySet(keys[..i])) + ListedIds(previous, {keys[i]});
  }

  method GroupByFile(chunks: seq<Chunk>) returns (byFile: map<FileKey, seq<Chunk>>)
    ensures forall key :: FileRows(chunks, key) == if key in byFile then byFile[key] else []
  {
    byFile := map[];
    for i := 0 to |chunks|
      invariant forall key :: FileRows(chunks[..i], key) == if key in byFile then byFile[key] else []
    {
      var key := KeyOf(chunks[i]);
      assert chunks[..i + 1][..i] == chunks[..i];
      byFile := byFile[key := (if key in byFile then byFile[key] else []) + [chunks[i]]];
    }
    assert chunks[..|chunks|] == chunks;
  }

  lemma InsertedOneMore(rows: Rows, fts: seq<FtsRow>, chunks: seq<Chunk>, keys: seq<FileKey>, i: nat)
    requires i < |keys|
    ensures var done, more, all := InsertedFrom(chunks, keys[..i]), FileRows(chunks, keys[i]), InsertedFrom(chunks, keys[..i + 1]);
            && all == done + more
            && rows + Table(all) == rows + Table(done) + Table(more)
            && fts + FtsRows(all) == fts + FtsRows(done) + FtsRows(more)
  {
    assert keys[..i + 1][..i] == keys[..i];
    InsertedTwice(rows, fts, InsertedFrom(chunks, keys[..i]), FileRows(chunks, keys[i]));
  }

  lemma InsertedTwice(rows: Rows, fts: seq<FtsRow>, done: seq<Chunk>, more: seq<Chunk>)
    ensures rows + Table(done + more) == rows + Table(done) + Table(more)
    ensures fts + FtsRows(done + more) == fts + FtsRows(done) + FtsRows(more)
  {
    TableSum(done, more);
    MappedSum(FtsOf, done, more);
  }

  /** The next file goes in without a conflict exactly when all files so far and it do; if it does not, nor do all files. */
  lemma NextFileInsertable(rows: Rows, chunks: seq<Chunk>, keys: seq<FileKey>, i: nat)
    requires i < |keys| && Insertable(rows, InsertedFrom(chunks, keys[..i]))
    ensures var next := Insertable(rows + Table(InsertedFrom(chunks, keys[..i])), FileRows(chunks, keys[i]));
            && (next ==> Insertable(rows, InsertedFrom(chunks, keys[..i + 1])))
            && (Insertable(rows, InsertedFrom(chunks, keys)) ==> next)
  {
    var done, more := InsertedFrom(chunks, keys[..i]), FileRows(chunks, keys[i]);
    assert keys[..i + 1][..i] == keys[..i];
    if Insertable(rows, InsertedFrom(chunks, keys)) {
      InsertedPrefix(chunks, keys, i + 1);
      PrefixInsertable(rows, InsertedFrom(chunks, keys), |done + more|);
      SuffixInsertable(rows, done, more);
    }
    if Insertable(rows + Table(done), more) {
      SumInsertable(rows, done, more);
    }
  }

  lemma SumInsertable(rows: Rows, done: seq<Chunk>, more: seq<Chunk>)
    requires Insertable(rows, done) && Insertable(rows + Table(done), more)
    ensures Insertable(rows, done + more)
  {
    TableMembers(done);
    forall i, j | 0 <= i < |done| && 0 <= j < |more| ensures done[i].id != more[j].id {
      assert done[i] in done && more[j] in more;
    }
  }

  lemma {:induction false} InsertedPrefix(chunks: seq<Chunk>, keys: seq<FileKey>, i: nat)
    requires i <= |keys|
    ensures InsertedFrom(chunks, keys[..i]) <= InsertedFrom(chunks, keys)
  {
    if i == |keys| {
      assert keys[..i] == keys;
    } else {
      InsertedPrefix(chunks, keys[..|keys| - 1], i);
      assert keys[..|keys| - 1][..i] == keys[..i];
    }
  }

  lemma SuffixInsertable(rows: Rows, done: seq<Chunk>, more: seq<Chunk>)
    requires Insertable(rows, done + more)
    ensures Insertable(rows + Table(done), more)
  {
    forall i, j | 0 <= i < j < |more| ensures more[i].id != more[j].id {
      assert (done + more)[|done| + i] == more[i] && (done + more)[|done| + j] == more[j];
    }
    forall i, j | 0 <= i < j < |done| ensures done[i].id != done[j].id {
      assert (done + more)[i] == done[i] && (done + more)[j] == done[j];
    }
    TableMembers(done);
    forall c | c in more ensures c.id !in rows + Table(done) {
      assert c in done + more;
      var j :| 0 <= j < |more| && more[j] == c;
      forall d | d in done ensures d.id != c.id {
        var i :| 0 <= i < |done| && done[i] == d;
        assert (done + more)[i] == d && (done + more)[|done| + j] == c;
      }
    }
  }

  /** The files in an order that has each once. */
  method SortedKeys(keys: set<FileKey>) returns (order: seq<FileKey>)
    ensures Unique(order) && KeySet(order) == keys
  {
    order := [];
    var rest := keys;
    while rest != {}
      invariant Unique(order) && KeySet(order) + rest == keys && KeySet(order) !! rest
      decreases rest
    {
      var key :| key in rest;
      assert key !in order;
      order, rest := order + [key], rest - {key};
      assert KeySet(order) == KeySet(order[..|order| - 1]) + {key};
    }
    var sorted := Sort(order, KeyLess);
    SortedMembers(order, KeyLess);
    UniquePermutation(order, sorted);
    order := sorted;
  }

  predicate KeyLess(a: FileKey, b: FileKey) {
    StringLess(a.namespace, b.namespace) || (a.namespace == b.namespace && StringLess(a.repositoryPath, b.repositoryPath))
  }

  lemma {:induction false} InsertedMembers(chunks: seq<Chunk>, keys: seq<FileKey>)
    ensures forall c :: c in InsertedFrom(chunks, keys) <==> c in chunks && KeyOf(c) in keys
  {
    if keys != [] {
      InsertedMembers(chunks, keys[..|keys| - 1]);
      FileRowsMembers(chunks, keys[|keys| - 1]);
    }
  }

  lemma {:induction false} FileRowsUnique(chunks: seq<Chunk>, key: FileKey)
    requires UniqueIds(chunks)
    ensures UniqueIds(FileRows(chunks, key))
  {
    if chunks != [] {
      var n := |chunks| - 1;
      FileRowsUnique(chunks[..n], key);
      FileRowsMembers(chunks[..n], key);
      AppendUnique(FileRows(chunks[..n], key), chunks, n);
    }
  }

  lemma AppendUnique(front: seq<Chunk>, chunks: seq<Chunk>, n: nat)
    requires UniqueIds(front) && UniqueIds(chunks) && n < |chunks| && forall c <- front :: c in chunks[..n]
    ensures UniqueIds(front + [chunks[n]])
  {
    forall i | 0 <= i < |front| ensures front[i].id != chunks[n].id {
      assert front[i] in chunks[..n];
      var j :| 0 <= j < n && chunks[..n][j] == front[i];
      assert chunks[j] == front[i];
    }
  }

  lemma {:induction false} InsertedAreUnique(chunks: seq<Chunk>, keys: seq<FileKey>)
    requires UniqueIds(chunks) && Unique(keys)
    ensures UniqueIds(InsertedFrom(chunks, keys))
  {
    if keys != [] {
      var n := |keys| - 1;
      var done, more := InsertedFrom(chunks, keys[..n]), FileRows(chunks, keys[n]);
      InsertedAreUnique(chunks, keys[..n]);
      InsertedMembers(chunks, keys[..n]);
      FileRowsMembers(chunks, keys[n]);
      FileRowsUnique(chunks, keys[n]);
      forall i, j | 0 <= i < |done| && 0 <= j < |more| ensures done[i].id != more[j].id {
        assert done[i] in done && more[j] in more;
        if done[i].id == more[j].id {
          UniqueIdOwners(chunks, done[i], more[j]);
        }
      }
    }
  }

  lemma InsertedAreInserts(chunks: seq<Chunk>, keys: seq<FileKey>)
    requires UniqueIds(chunks) && Unique(keys)
    ensures Inserts(chunks, KeySet(keys), InsertedFrom(chunks, keys))
  {
    InsertedAreUnique(chunks, keys);
    InsertedMembers(chunks, keys);
  }
}
