/**
 The content-addressed vector cache of the retrieval service: an in-memory dictionary over four
 kinds of files (one file per entry, one file per shard, one file per model, one legacy file per
 entry).  `Store` is the value of all five layers; the functions say what each operation does to
 it, and the class performs the operations in place.
 */
module VectorCaches {
  import opened Prelude

  /** (model, content fingerprint) */
  type VectorKey = (string, string)

  /** (model, shard); shard "" is the one-file-per-model layout that predates shards. */
  type ShardKey = (string, string)

  datatype VectorRecord = VectorRecord(textHash: string, vector: seq<real>)

  type VectorFile = map<string, VectorRecord>

  datatype Store = Store(
    memory: map<VectorKey, VectorRecord>,
    files: map<ShardKey, VectorFile>,
    entryFiles: map<VectorKey, VectorRecord>,
    shardFiles: map<ShardKey, VectorFile>,
    legacyFiles: map<VectorKey, VectorRecord>)
  {
    /** What a newly started adapter finds: the same files, nothing in memory. */
    function Restarted(): Store {
      this.(memory := map[], files := map[])
    }
  }

  /** One record without a vector makes the loader reject the whole file. */
  predicate Readable(file: VectorFile) {
    forall fp <- file :: file[fp].vector != []
  }

  function FileOnDisk(s: Store, at: ShardKey): VectorFile {
    if at in s.shardFiles && Readable(s.shardFiles[at]) then s.shardFiles[at] else map[]
  }

  function Keyed(model: string, file: VectorFile): map<VectorKey, VectorRecord> {
    map fp | fp in file :: (model, fp) := file[fp]
  }

  /** Loading a file also copies every record into the in-memory dictionary, over what was there. */
  function LoadFile(s: Store, at: ShardKey): Store {
    if at in s.shardFiles && Readable(s.shardFiles[at]) then
      s.(files := s.files[at := s.shardFiles[at]], memory := s.memory + Keyed(at.0, s.shardFiles[at]))
    else s
  }

  function Opened(s: Store, at: ShardKey): Store {
    if at in s.files then s else LoadFile(s, at)
  }

  function Contents(s: Store, at: ShardKey): VectorFile {
    if at in s.files then s.files[at] else FileOnDisk(s, at)
  }

  function Remember(s: Store, key: VectorKey, record: VectorRecord): (Store, Option<VectorRecord>) {
    (s.(memory := s.memory[key := record]), Some(record))
  }

  function Get(shardOf: string -> string, s: Store, key: VectorKey): (Store, Option<VectorRecord>) {
    if key in s.memory then (s, Some(s.memory[key]))
    else if key in s.entryFiles && s.entryFiles[key].vector != [] then Remember(s, key, s.entryFiles[key])
    else
      var at := (key.0, shardOf(key.1));
      var s1 := Opened(s, at);
      if key.1 in Contents(s, at) then Remember(s1, key, Contents(s, at)[key.1])
      else
        var whole := (key.0, "");
        var s2 := Opened(s1, whole);
        if key.1 in Contents(s1, whole) then Remember(s2, key, Contents(s1, whole)[key.1])
        else if key in s.legacyFiles && s.legacyFiles[key].vector != [] then Remember(s2, key, s.legacyFiles[key])
        else (s2, None)
  }

  /** The answer of a newly started adapter, as a function of the files alone. */
  function Lookup(shardOf: string -> string, s: Store, key: VectorKey): Option<VectorRecord> {
    LookupIn(FileOnDisk(s, (key.0, shardOf(key.1))), FileOnDisk(s, (key.0, "")), s.entryFiles, s.legacyFiles, key)
  }

  function LookupIn(shard: VectorFile, whole: VectorFile, entryFiles: map<VectorKey, VectorRecord>,
                    legacyFiles: map<VectorKey, VectorRecord>, key: VectorKey): Option<VectorRecord>
  {
    if key in entryFiles && entryFiles[key].vector != [] then Some(entryFiles[key])
    else if key.1 in shard then Some(shard[key.1])
    else if key.1 in whole then Some(whole[key.1])
    else if key in legacyFiles && legacyFiles[key].vector != [] then Some(legacyFiles[key])
    else None
  }

  type Entries = seq<(VectorKey, VectorRecord)>

  function ShardOfKey(shardOf: string -> string, key: VectorKey): ShardKey {
    (key.0, shardOf(key.1))
  }

  /** The batch as a dictionary: of two entries with one key the later one wins. */
  function AsMap(entries: Entries): map<VectorKey, VectorRecord> {
    if entries == [] then map[]
    else
      var last := entries[|entries| - 1];
      AsMap(entries[..|entries| - 1])[last.0 := last.1]
  }

  lemma {:induction false} AsMapMembers(entries: Entries)
    ensures forall k :: k in AsMap(entries) <==> exists i :: 0 <= i < |entries| && entries[i].0 == k
    ensures forall k <- AsMap(entries) :: exists i :: 0 <= i < |entries| && entries[i] == (k, AsMap(entries)[k])
  {
    if entries != [] {
      var n := |entries| - 1;
      AsMapMembers(entries[..n]);
      assert entries == entries[..n] + [entries[n]];
    }
  }

  lemma AsMapOneMore(entries: Entries, key: VectorKey, record: VectorRecord)
    ensures AsMap(entries + [(key, record)]) == AsMap(entries)[key := record]
  {
    assert (entries + [(key, record)])[..|entries|] == entries;
  }

  function RecordsFor(shardOf: string -> string, entries: Entries, at: ShardKey): VectorFile {
    if entries == [] then map[]
    else
      var front, last := RecordsFor(shardOf, entries[..|entries| - 1], at), entries[|entries| - 1];
      if ShardOfKey(shardOf, last.0) == at then front[last.0.1 := last.1] else front
  }

  lemma {:induction false} RecordsForMembers(shardOf: string -> string, entries: Entries, at: ShardKey, fp: string)
    ensures fp in RecordsFor(shardOf, entries, at) <==> (at.0, fp) in AsMap(entries) && shardOf(fp) == at.1
    ensures fp in RecordsFor(shardOf, entries, at) ==> RecordsFor(shardOf, entries, at)[fp] == AsMap(entries)[(at.0, fp)]
  {
    if entries != [] {
      RecordsForMembers(shardOf, entries[..|entries| - 1], at, fp);
    }
  }

  function TouchedShards(shardOf: string -> string, entries: Entries): seq<ShardKey> {
    Distinct(seq(|entries|, i requires 0 <= i < |entries| => ShardOfKey(shardOf, entries[i].0)))
  }

  predicate HoldsShard(s: Store, at: ShardKey) {
    at in s.files && s.files[at] != map[]
  }

  /** The part of a one-file-per-model cache that belongs to one shard. */
  function OfShard(shardOf: string -> string, file: VectorFile, shard: string): VectorFile {
    map fp | fp in file && shardOf(fp) == shard :: file[fp]
  }

  /** Where the records already persisted for a shard come from before a batch is written over them. */
  function Prior(shardOf: string -> string, s: Store, at: ShardKey): (Store, VectorFile) {
    if HoldsShard(s, at) then (s, s.files[at])
    else
      var s1 := LoadFile(s, at);
      if FileOnDisk(s, at) != map[] then (s1, FileOnDisk(s, at))
      else
        var whole := (at.0, "");
        (Opened(s1, whole), OfShard(shardOf, Contents(s1, whole), at.1))
  }

  function Persist(s: Store, at: ShardKey, file: VectorFile): Store {
    s.(files := s.files[at := file], shardFiles := s.shardFiles[at := file])
  }

  function WriteShard(shardOf: string -> string, s: Store, at: ShardKey, records: VectorFile): Store {
    var (s1, prior) := Prior(shardOf, s, at);
    Persist(s1, at, prior + records)
  }

  function WriteShards(shardOf: string -> string, s: Store, shards: seq<ShardKey>, entries: Entries): Store {
    if shards == [] then s
    else
      var at := shards[|shards| - 1];
      WriteShard(shardOf, WriteShards(shardOf, s, shards[..|shards| - 1], entries), at, RecordsFor(shardOf, entries, at))
  }

  function WriteBatch(shardOf: string -> string, s: Store, entries: Entries): Store {
    var written := WriteShards(shardOf, s, TouchedShards(shardOf, entries), entries);
    written.(entryFiles := written.entryFiles - AsMap(entries).Keys)
  }

  ghost predicate Records(m: map<VectorKey, VectorRecord>, ok: (VectorKey, VectorRecord) -> bool) {
    forall k :: k in m ==> ok(k, m[k])
  }

  ghost predicate FileRecords(model: string, file: VectorFile, ok: (VectorKey, VectorRecord) -> bool) {
    forall fp :: fp in file ==> ok((model, fp), file[fp])
  }

  ghost predicate Files(m: map<ShardKey, VectorFile>, ok: (VectorKey, VectorRecord) -> bool) {
    forall at :: at in m ==> FileRecords(at.0, m[at], ok)
  }

  /** Every record of every layer satisfies `ok`. */
  ghost predicate Every(s: Store, ok: (VectorKey, VectorRecord) -> bool) {
    Records(s.memory, ok) && Files(s.files, ok) && Records(s.entryFiles, ok) && Files(s.shardFiles, ok) && Records(s.legacyFiles, ok)
  }

  /** The parsed files held in memory are the files on disk. */
  ghost predicate Coherent(s: Store) {
    forall at :: at in s.files ==> at in s.shardFiles && Readable(s.shardFiles[at]) && s.files[at] == s.shardFiles[at]
  }

  ghost predicate SameFiles(s: Store, s': Store) {
    s'.shardFiles == s.shardFiles && s'.entryFiles == s.entryFiles && s'.legacyFiles == s.legacyFiles
  }

  /** A vector that some text with the recorded hash really embeds to. */
  ghost predicate TrueVector(hash: string -> string, embed: (string, string) -> seq<real>, key: VectorKey, r: VectorRecord) {
    exists text :: r.textHash == hash(text) && r.vector == embed(key.0, text)
  }

  lemma EveryWeakens(s: Store, ok: (VectorKey, VectorRecord) -> bool, weaker: (VectorKey, VectorRecord) -> bool)
    requires Every(s, ok) && forall k, r :: ok(k, r) ==> weaker(k, r)
    ensures Every(s, weaker)
  {
    forall at | at in s.files ensures FileRecords(at.0, s.files[at], weaker) {
      assert FileRecords(at.0, s.files[at], ok);
    }
    forall at | at in s.shardFiles ensures FileRecords(at.0, s.shardFiles[at], weaker) {
      assert FileRecords(at.0, s.shardFiles[at], ok);
    }
  }

  lemma RestartKeepsEvery(s: Store, ok: (VectorKey, VectorRecord) -> bool)
    requires Every(s, ok)
    ensures Every(s.Restarted(), ok)
  {
  }

  lemma LoadFileKeepsEvery(s: Store, at: ShardKey, ok: (VectorKey, VectorRecord) -> bool)
    requires Every(s, ok)
    ensures Every(LoadFile(s, at), ok)
    ensures FileRecords(at.0, FileOnDisk(s, at), ok)
  {
    if at in s.shardFiles && Readable(s.shardFiles[at]) {
      var file := s.shardFiles[at];
      assert FileRecords(at.0, file, ok);
      assert Records(Keyed(at.0, file), ok);
    }
  }

  lemma OpenedKeepsEvery(s: Store, at: ShardKey, ok: (VectorKey, VectorRecord) -> bool)
    requires Every(s, ok)
    ensures Every(Opened(s, at), ok)
    ensures FileRecords(at.0, Contents(s, at), ok)
  {
    LoadFileKeepsEvery(s, at, ok);
  }

  lemma RememberKeepsEvery(s: Store, key: VectorKey, record: VectorRecord, ok: (VectorKey, VectorRecord) -> bool)
    requires Every(s, ok) && ok(key, record)
    ensures Every(Remember(s, key, record).0, ok)
  {
    assert Records(s.memory[key := record], ok);
  }

  lemma GetKeepsEvery(shardOf: string -> string, s: Store, key: VectorKey, ok: (VectorKey, VectorRecord) -> bool)
    requires Every(s, ok)
    ensures var (s', r) := Get(shardOf, s, key); Every(s', ok) && (r.Some? ==> ok(key, r.value))
  {
    if key in s.memory {
    } else if key in s.entryFiles && s.entryFiles[key].vector != [] {
      RememberKeepsEvery(s, key, s.entryFiles[key], ok);
    } else {
      var at := (key.0, shardOf(key.1));
      OpenedKeepsEvery(s, at, ok);
      var s1 := Opened(s, at);
      var whole := (key.0, "");
      OpenedKeepsEvery(s1, whole, ok);
      var s2 := Opened(s1, whole);
      assert (key.0, key.1) == key;
      if key.1 in Contents(s, at) {
        RememberKeepsEvery(s1, key, Contents(s, at)[key.1], ok);
      } else if key.1 in Contents(s1, whole) {
        RememberKeepsEvery(s2, key, Contents(s1, whole)[key.1], ok);
      } else if key in s.legacyFiles && s.legacyFiles[key].vector != [] {
        RememberKeepsEvery(s2, key, s.legacyFiles[key], ok);
      }
    }
  }

  /** What an adapter has loaded so far has vectors throughout: files without are not read. */
  ghost predicate LoadedVectors(s: Store) {
    (forall k :: k in s.memory ==> s.memory[k].vector != []) && (forall at :: at in s.files ==> Readable(s.files[at]))
  }

  lemma OpenedLoadsVectors(s: Store, at: ShardKey)
    requires LoadedVectors(s)
    ensures LoadedVectors(Opened(s, at)) && Readable(Contents(s, at))
  {
  }

  lemma RememberLoadsVectors(s: Store, key: VectorKey, record: VectorRecord)
    requires LoadedVectors(s) && record.vector != []
    ensures LoadedVectors(Remember(s, key, record).0)
  {
  }

  lemma GetLoadsVectors(shardOf: string -> string, s: Store, key: VectorKey)
    requires LoadedVectors(s)
    ensures var (s', r) := Get(shardOf, s, key); LoadedVectors(s') && (r.Some? ==> r.value.vector != [])
  {
    if key in s.memory {
    } else if key in s.entryFiles && s.entryFiles[key].vector != [] {
      RememberLoadsVectors(s, key, s.entryFiles[key]);
    } else {
      var at, whole := (key.0, shardOf(key.1)), (key.0, "");
      var s1 := Opened(s, at);
      OpenedLoadsVectors(s, at);
      OpenedLoadsVectors(s1, whole);
      var s2 := Opened(s1, whole);
      if key.1 in Contents(s, at) {
        RememberLoadsVectors(s1, key, Contents(s, at)[key.1]);
      } else if key.1 in Contents(s1, whole) {
        RememberLoadsVectors(s2, key, Contents(s1, whole)[key.1]);
      } else if key in s.legacyFiles && s.legacyFiles[key].vector != [] {
        RememberLoadsVectors(s2, key, s.legacyFiles[key]);
      }
    }
  }

  lemma PriorKeepsEvery(shardOf: string -> string, s: Store, at: ShardKey, ok: (VectorKey, VectorRecord) -> bool)
    requires Every(s, ok)
    ensures var (s1, prior) := Prior(shardOf, s, at); Every(s1, ok) && FileRecords(at.0, prior, ok)
  {
    if !HoldsShard(s, at) {
      LoadFileKeepsEvery(s, at, ok);
      OpenedKeepsEvery(LoadFile(s, at), (at.0, ""), ok);
    }
  }

  lemma PersistKeepsEvery(s: Store, at: ShardKey, file: VectorFile, ok: (VectorKey, VectorRecord) -> bool)
    requires Every(s, ok) && FileRecords(at.0, file, ok)
    ensures Every(Persist(s, at, file), ok)
  {
  }

  lemma WriteShardKeepsEvery(shardOf: string -> string, s: Store, at: ShardKey, records: VectorFile, ok: (VectorKey, VectorRecord) -> bool)
    requires Every(s, ok) && FileRecords(at.0, records, ok)
    ensures Every(WriteShard(shardOf, s, at, records), ok)
  {
    PriorKeepsEvery(shardOf, s, at, ok);
    var (s1, prior) := Prior(shardOf, s, at);
    PersistKeepsEvery(s1, at, prior + records, ok);
  }

  lemma {:induction false} WriteShardsKeepEvery(shardOf: string -> string, s: Store, shards: seq<ShardKey>, entries: Entries, ok: (VectorKey, VectorRecord) -> bool)
    requires Every(s, ok) && Records(AsMap(entries), ok)
    ensures Every(WriteShards(shardOf, s, shards, entries), ok)
  {
    if shards != [] {
      var at := shards[|shards| - 1];
      WriteShardsKeepEvery(shardOf, s, shards[..|shards| - 1], entries, ok);
      forall fp | fp in RecordsFor(shardOf, entries, at) ensures ok((at.0, fp), RecordsFor(shardOf, entries, at)[fp]) {
        RecordsForMembers(shardOf, entries, at, fp);
      }
      WriteShardKeepsEvery(shardOf, WriteShards(shardOf, s, shards[..|shards| - 1], entries), at, RecordsFor(shardOf, entries, at), ok);
    }
  }

  lemma WriteBatchKeepsEvery(shardOf: string -> string, s: Store, entries: Entries, ok: (VectorKey, VectorRecord) -> bool)
    requires Every(s, ok) && Records(AsMap(entries), ok)
    ensures Every(WriteBatch(shardOf, s, entries), ok)
  {
    WriteShardsKeepEvery(shardOf, s, TouchedShards(shardOf, entries), entries, ok);
  }

  /** A key that is not in memory is looked for in what the files contain. */
  lemma GetFromFiles(shardOf: string -> string, s: Store, key: VectorKey)
    requires key !in s.memory
    ensures var at, whole := (key.0, shardOf(key.1)), (key.0, "");
            Get(shardOf, s, key).1 == LookupIn(Contents(s, at), Contents(Opened(s, at), whole), s.entryFiles, s.legacyFiles, key)
  {
  }

  lemma ContentsAfterStart(s: Store, at: ShardKey, whole: ShardKey)
    requires s.files == map[]
    ensures Contents(s, at) == FileOnDisk(s, at) && Contents(Opened(s, at), whole) == FileOnDisk(s, whole)
  {
  }

  /** A newly started adapter answers from the files. */
  lemma RestartedAdapterAnswersFromFiles(shardOf: string -> string, s: Store, key: VectorKey)
    ensures Get(shardOf, s.Restarted(), key).1 == Lookup(shardOf, s, key)
  {
    var at, whole := (key.0, shardOf(key.1)), (key.0, "");
    GetFromFiles(shardOf, s.Restarted(), key);
    ContentsAfterStart(s.Restarted(), at, whole);
    assert FileOnDisk(s.Restarted(), at) == FileOnDisk(s, at) && FileOnDisk(s.Restarted(), whole) == FileOnDisk(s, whole);
  }

  /** Reading moves records into memory and leaves the files alone; what is in the files is found. */
  lemma GetLeavesFiles(shardOf: string -> string, s: Store, key: VectorKey)
    requires Coherent(s)
    ensures var (s', r) := Get(shardOf, s, key);
            Coherent(s') && SameFiles(s, s') && (Lookup(shardOf, s, key).Some? ==> r.Some?)
  {
    var at, whole := (key.0, shardOf(key.1)), (key.0, "");
    OpenedStaysCoherent(s, at);
    var s1 := Opened(s, at);
    OpenedStaysCoherent(s1, whole);
    assert FileOnDisk(s1, whole) == FileOnDisk(s, whole);
    if key !in s.memory && !(key in s.entryFiles && s.entryFiles[key].vector != []) {
      if key.1 !in Contents(s, at) && key.1 !in Contents(s1, whole) {
        assert Get(shardOf, s, key) ==
          if key in s.legacyFiles && s.legacyFiles[key].vector != [] then Remember(Opened(s1, whole), key, s.legacyFiles[key])
          else (Opened(s1, whole), None);
      }
    }
  }

  lemma OpenedStaysCoherent(s: Store, at: ShardKey)
    requires Coherent(s)
    ensures Coherent(Opened(s, at)) && SameFiles(s, Opened(s, at)) && Contents(s, at) == FileOnDisk(s, at)
  {
    LoadFileStaysCoherent(s, at);
  }

  lemma SameFilesSameLookup(shardOf: string -> string, s: Store, s': Store, key: VectorKey)
    requires SameFiles(s, s')
    ensures Lookup(shardOf, s, key) == Lookup(shardOf, s', key)
  {
    assert FileOnDisk(s, (key.0, shardOf(key.1))) == FileOnDisk(s', (key.0, shardOf(key.1)));
    assert FileOnDisk(s, (key.0, "")) == FileOnDisk(s', (key.0, ""));
  }

  predicate HasVectors(file: map<VectorKey, VectorRecord>) {
    forall k <- file :: file[k].vector != []
  }

  /** What a shard file holds before a batch is merged into it, read off the disk. */
  function PriorFile(shardOf: string -> string, s: Store, at: ShardKey): VectorFile {
    if FileOnDisk(s, at) != map[] then FileOnDisk(s, at)
    else OfShard(shardOf, FileOnDisk(s, (at.0, "")), at.1)
  }

  lemma LoadFileStaysCoherent(s: Store, at: ShardKey)
    requires Coherent(s)
    ensures Coherent(LoadFile(s, at)) && SameFiles(s, LoadFile(s, at))
    ensures Contents(s, at) == FileOnDisk(s, at)
    ensures Readable(FileOnDisk(s, at))
  {
  }

  lemma PriorIsOnDisk(shardOf: string -> string, s: Store, at: ShardKey)
    requires Coherent(s)
    ensures Prior(shardOf, s, at).1 == PriorFile(shardOf, s, at) && Readable(PriorFile(shardOf, s, at))
    ensures Coherent(Prior(shardOf, s, at).0) && SameFiles(s, Prior(shardOf, s, at).0)
  {
    LoadFileStaysCoherent(s, at);
    var s1, whole := LoadFile(s, at), (at.0, "");
    if !HoldsShard(s, at) && FileOnDisk(s, at) == map[] {
      LoadFileStaysCoherent(s1, whole);
      assert FileOnDisk(s1, whole) == FileOnDisk(s, whole);
      OfShardIsReadable(shardOf, FileOnDisk(s, whole), at.1);
      assert Prior(shardOf, s, at) == (Opened(s1, whole), OfShard(shardOf, Contents(s1, whole), at.1));
    } else if !HoldsShard(s, at) {
      assert Prior(shardOf, s, at) == (s1, FileOnDisk(s, at));
    } else {
      assert Prior(shardOf, s, at) == (s, s.files[at]);
    }
  }

  lemma OfShardIsReadable(shardOf: string -> string, file: VectorFile, shard: string)
    requires Readable(file)
    ensures Readable(OfShard(shardOf, file, shard))
  {
  }

  lemma WriteShardOnDisk(shardOf: string -> string, s: Store, at: ShardKey, records: VectorFile)
    requires Coherent(s) && Readable(records)
    ensures var s' := WriteShard(shardOf, s, at, records);
            && Coherent(s') && s'.entryFiles == s.entryFiles && s'.legacyFiles == s.legacyFiles
            && FileOnDisk(s', at) == PriorFile(shardOf, s, at) + records
            && forall other :: other != at ==> FileOnDisk(s', other) == FileOnDisk(s, other)
  {
    PriorIsOnDisk(shardOf, s, at);
    PersistOnDisk(Prior(shardOf, s, at).0, at, PriorFile(shardOf, s, at), records);
  }

  lemma PersistOnDisk(s: Store, at: ShardKey, prior: VectorFile, records: VectorFile)
    requires Coherent(s) && Readable(prior) && Readable(records)
    ensures var s' := Persist(s, at, prior + records);
            && Coherent(s')
            && FileOnDisk(s', at) == prior + records
            && forall other :: other != at ==> FileOnDisk(s', other) == FileOnDisk(s, other)
  {
    assert Readable(prior + records);
    var s' := Persist(s, at, prior + records);
    forall other | other != at ensures FileOnDisk(s', other) == FileOnDisk(s, other) {
      assert other in s'.shardFiles <==> other in s.shardFiles;
    }
  }

  /** The file of shard `at` once the given shards were written, each at most once. */
  function FileAfter(shardOf: string -> string, s: Store, shards: seq<ShardKey>, entries: Entries, at: ShardKey): VectorFile {
    if at in shards then PriorFile(shardOf, s, at) + RecordsFor(shardOf, entries, at) else FileOnDisk(s, at)
  }

  ghost predicate WroteShards(shardOf: string -> string, s: Store, s': Store, shards: seq<ShardKey>, entries: Entries) {
    && s'.entryFiles == s.entryFiles && s'.legacyFiles == s.legacyFiles
    && forall at :: FileOnDisk(s', at) == FileAfter(shardOf, s, shards, entries, at)
  }

  lemma RecordsForHaveVectors(shardOf: string -> string, entries: Entries, at: ShardKey)
    requires HasVectors(AsMap(entries))
    ensures Readable(RecordsFor(shardOf, entries, at))
  {
    forall fp | fp in RecordsFor(shardOf, entries, at) ensures RecordsFor(shardOf, entries, at)[fp].vector != [] {
      RecordsForMembers(shardOf, entries, at, fp);
    }
  }

  lemma {:induction false} WriteShardsOnDisk(shardOf: string -> string, s: Store, shards: seq<ShardKey>, entries: Entries)
    requires Coherent(s) && HasVectors(AsMap(entries)) && Unique(shards)
    requires forall at :: at in shards ==> at.1 != ""
    ensures Coherent(WriteShards(shardOf, s, shards, entries))
    ensures WroteShards(shardOf, s, WriteShards(shardOf, s, shards, entries), shards, entries)
  {
    if shards != [] {
      var front, last := shards[..|shards| - 1], shards[|shards| - 1];
      assert shards == front + [last] && last !in front && (last.0, "") !in front;
      WriteShardsOnDisk(shardOf, s, front, entries);
      var mid := WriteShards(shardOf, s, front, entries);
      var records := RecordsFor(shardOf, entries, last);
      RecordsForHaveVectors(shardOf, entries, last);
      WriteShardOnDisk(shardOf, mid, last, records);
      OneMoreShard(shardOf, s, mid, WriteShard(shardOf, mid, last, records), front, last, entries);
    }
  }

  lemma OneMoreShard(shardOf: string -> string, s: Store, mid: Store, s': Store, front: seq<ShardKey>, last: ShardKey, entries: Entries)
    requires WroteShards(shardOf, s, mid, front, entries)
    requires last !in front && (last.0, "") !in front && last.1 != ""
    requires s'.entryFiles == mid.entryFiles && s'.legacyFiles == mid.legacyFiles
    requires FileOnDisk(s', last) == PriorFile(shardOf, mid, last) + RecordsFor(shardOf, entries, last)
    requires forall other :: other != last ==> FileOnDisk(s', other) == FileOnDisk(mid, other)
    ensures WroteShards(shardOf, s, s', front + [last], entries)
  {
    assert FileOnDisk(mid, last) == FileAfter(shardOf, s, front, entries, last);
    assert FileOnDisk(mid, (last.0, "")) == FileAfter(shardOf, s, front, entries, (last.0, ""));
    assert PriorFile(shardOf, mid, last) == PriorFile(shardOf, s, last);
    forall at ensures FileOnDisk(s', at) == FileAfter(shardOf, s, front + [last], entries, at) {
      assert FileOnDisk(mid, at) == FileAfter(shardOf, s, front, entries, at);
    }
  }

  lemma TouchesItsShard(shardOf: string -> string, entries: Entries, key: VectorKey)
    requires key in AsMap(entries)
    ensures ShardOfKey(shardOf, key) in TouchedShards(shardOf, entries)
  {
    AsMapMembers(entries);
    var i :| 0 <= i < |entries| && entries[i].0 == key;
    assert seq(|entries|, i requires 0 <= i < |entries| => ShardOfKey(shardOf, entries[i].0))[i] == ShardOfKey(shardOf, key);
  }

  /** For a newly started adapter a batch write is an overlay: the new records win, nothing else changes. */
  lemma BatchWriteOverlaysLookup(shardOf: string -> string, s: Store, entries: Entries, key: VectorKey)
    requires Coherent(s) && HasVectors(AsMap(entries))
    requires forall fp :: shardOf(fp) != ""
    ensures Coherent(WriteBatch(shardOf, s, entries))
    ensures Lookup(shardOf, WriteBatch(shardOf, s, entries), key)
         == if key in AsMap(entries) then Some(AsMap(entries)[key]) else Lookup(shardOf, s, key)
  {
    var shards := TouchedShards(shardOf, entries);
    WriteShardsOnDisk(shardOf, s, shards, entries);
    var mid := WriteShards(shardOf, s, shards, entries);
    UnlinkedEntries(shardOf, s, entries, key);
    var at, whole := ShardOfKey(shardOf, key), (key.0, "");
    assert FileOnDisk(mid, at) == FileAfter(shardOf, s, shards, entries, at);
    assert FileOnDisk(mid, whole) == FileAfter(shardOf, s, shards, entries, whole);
    assert whole !in shards;
    if key in AsMap(entries) {
      TouchesItsShard(shardOf, entries, key);
    }
    RecordsForKey(shardOf, entries, key);
    var s' := WriteBatch(shardOf, s, entries);
    assert FileOnDisk(s', at) == FileOnDisk(mid, at) && FileOnDisk(s', whole) == FileOnDisk(s, whole);
    assert at !in shards ==> FileOnDisk(s', at) == FileOnDisk(s, at);
    LookupOverlay(shardOf, FileOnDisk(s, at), FileOnDisk(s, whole), s, s', RecordsFor(shardOf, entries, at), at in shards, entries, key);
  }

  lemma LookupOverlay(shardOf: string -> string, shard: VectorFile, whole: VectorFile, s: Store, s': Store,
                      own: VectorFile, touched: bool, entries: Entries, key: VectorKey)
    requires key in AsMap(entries) ==> touched && key.1 in own && own[key.1] == AsMap(entries)[key]
    requires key !in AsMap(entries) ==> key.1 !in own
    requires s'.legacyFiles == s.legacyFiles
    requires key in s'.entryFiles <==> key in s.entryFiles && key !in AsMap(entries)
    requires key in s'.entryFiles ==> s'.entryFiles[key] == s.entryFiles[key]
    ensures var prior := if shard != map[] then shard else OfShard(shardOf, whole, shardOf(key.1));
            LookupIn(if touched then prior + own else shard, whole, s'.entryFiles, s'.legacyFiles, key)
            == if key in AsMap(entries) then Some(AsMap(entries)[key]) else LookupIn(shard, whole, s.entryFiles, s.legacyFiles, key)
  {
  }

  lemma UnlinkedEntries(shardOf: string -> string, s: Store, entries: Entries, key: VectorKey)
    requires Coherent(WriteShards(shardOf, s, TouchedShards(shardOf, entries), entries))
    ensures var mid, s' := WriteShards(shardOf, s, TouchedShards(shardOf, entries), entries), WriteBatch(shardOf, s, entries);
            && Coherent(s') && s'.shardFiles == mid.shardFiles && s'.legacyFiles == mid.legacyFiles
            && (key in s'.entryFiles <==> key in mid.entryFiles && key !in AsMap(entries))
            && (key in s'.entryFiles ==> s'.entryFiles[key] == mid.entryFiles[key])
  {
  }

  lemma RecordsForKey(shardOf: string -> string, entries: Entries, key: VectorKey)
    ensures var own := RecordsFor(shardOf, entries, ShardOfKey(shardOf, key));
            if key in AsMap(entries) then key.1 in own && own[key.1] == AsMap(entries)[key] else key.1 !in own
  {
    RecordsForMembers(shardOf, entries, ShardOfKey(shardOf, key), key.1);
  }

  /** `index_upsert` keeps a new vector in memory before it writes the batch. */
  function Keep(shardOf: string -> string, s: Store, entries: Entries): Store {
    if entries == [] then s else WriteBatch(shardOf, s.(memory := s.memory + AsMap(entries)), entries)
  }

  predicate Loadable(s: Store, at: ShardKey) {
    at in s.shardFiles && Readable(s.shardFiles[at])
  }

  /** A shard that is neither held nor on disk is completed from the monolithic file. */
  predicate FromWhole(s: Store, at: ShardKey) {
    !HoldsShard(s, at) && FileOnDisk(s, at) == map[]
  }

  predicate WholeReached(s: Store, shards: seq<ShardKey>, model: string) {
    exists at <- shards :: at.0 == model && FromWhole(s, at)
  }

  /** The record that the last file loaded while the given shards are written brings for a key, if any file does. */
  function Reloaded(s: Store, shards: seq<ShardKey>, key: VectorKey): Option<VectorRecord> {
    if shards == [] then None
    else
      var front, at, whole := shards[..|shards| - 1], shards[|shards| - 1], (key.0, "");
      if at.0 == key.0 && !HoldsShard(s, at) && key.1 in FileOnDisk(s, at) then Some(FileOnDisk(s, at)[key.1])
      else if at.0 == key.0 && FromWhole(s, at) && whole !in s.files && !WholeReached(s, front, key.0) && key.1 in FileOnDisk(s, whole) then
        Some(FileOnDisk(s, whole)[key.1])
      else Reloaded(s, front, key)
  }

  /** Writing a batch may first load files, and the last of them to know a key may know an older record of it. */
  predicate ReloadsOlder(shardOf: string -> string, s: Store, entries: Entries, key: VectorKey)
    requires key in AsMap(entries)
  {
    var reloaded := Reloaded(s, TouchedShards(shardOf, entries), key);
    reloaded.Some? && reloaded.value != AsMap(entries)[key]
  }

  function MemoryAt(s: Store, key: VectorKey): Option<VectorRecord> {
    if key in s.memory then Some(s.memory[key]) else None
  }

  /** What a load leaves in memory for a key. */
  lemma LoadedMemory(s: Store, at: ShardKey, key: VectorKey)
    ensures MemoryAt(LoadFile(s, at), key)
            == if at.0 == key.0 && key.1 in FileOnDisk(s, at) then Some(FileOnDisk(s, at)[key.1]) else MemoryAt(s, key)
  {
    assert (key.0, key.1) == key;
  }

  /** The same for everything a shard is completed from before it is written. */
  lemma PriorMemory(shardOf: string -> string, s: Store, at: ShardKey, key: VectorKey)
    requires at.1 != ""
    ensures var whole := (key.0, "");
            MemoryAt(Prior(shardOf, s, at).0, key)
            == if at.0 == key.0 && !HoldsShard(s, at) && key.1 in FileOnDisk(s, at) then Some(FileOnDisk(s, at)[key.1])
               else if at.0 == key.0 && FromWhole(s, at) && whole !in s.files && key.1 in FileOnDisk(s, whole) then
                 Some(FileOnDisk(s, whole)[key.1])
               else MemoryAt(s, key)
  {
    if !HoldsShard(s, at) {
      LoadedMemory(s, at, key);
      if FileOnDisk(s, at) == map[] {
        var s1 := LoadFile(s, at);
        assert (at.0, "") in s1.files <==> (at.0, "") in s.files;
        assert FileOnDisk(s1, (at.0, "")) == FileOnDisk(s, (at.0, ""));
        LoadedMemory(s1, (at.0, ""), key);
      }
    }
  }

  /** Loading one file leaves the others as they are, on disk and in memory. */
  lemma LoadedElsewhere(s: Store, at: ShardKey, other: ShardKey)
    ensures var s' := LoadFile(s, at);
            && s'.shardFiles == s.shardFiles
            && (other in s'.files <==> other in s.files || (other == at && Loadable(s, at)))
            && (other != at ==> (HoldsShard(s', other) <==> HoldsShard(s, other)))
  {
  }

  /** Files other than that of the shard being written: only the monolithic one may be loaded, and none changes on disk. */
  lemma PriorFiles(shardOf: string -> string, s: Store, at: ShardKey, other: ShardKey)
    requires at.1 != "" && other != at
    ensures var s' := Prior(shardOf, s, at).0;
            && s'.shardFiles == s.shardFiles
            && (other.1 != "" ==> (HoldsShard(s', other) <==> HoldsShard(s, other)))
            && (other.1 == "" ==> (other in s'.files <==> other in s.files || (other.0 == at.0 && FromWhole(s, at) && Loadable(s, other))))
  {
    LoadedElsewhere(s, at, other);
    LoadedElsewhere(s, at, (at.0, ""));
    if FromWhole(s, at) {
      LoadedElsewhere(LoadFile(s, at), (at.0, ""), other);
    }
  }

  /** After the given shards were written: the other shards are as they were, and which monolithic files are loaded. */
  ghost predicate Untouched(s: Store, s': Store, shards: seq<ShardKey>) {
    && (forall at :: at !in shards ==> FileOnDisk(s', at) == FileOnDisk(s, at) && (Loadable(s', at) <==> Loadable(s, at)))
    && (forall at :: at !in shards && at.1 != "" ==> (HoldsShard(s', at) <==> HoldsShard(s, at)))
    && (forall model :: (model, "") in s'.files <==> (model, "") in s.files || (WholeReached(s, shards, model) && Loadable(s, (model, ""))))
  }

  lemma WholeReachedOneMore(s: Store, front: seq<ShardKey>, at: ShardKey, model: string)
    ensures WholeReached(s, front + [at], model) <==> WholeReached(s, front, model) || (at.0 == model && FromWhole(s, at))
  {
    if WholeReached(s, front, model) {
      var a :| a in front && a.0 == model && FromWhole(s, a);
      assert a in front + [at];
    } else if at.0 == model && FromWhole(s, at) {
      assert at in front + [at];
    }
  }

  lemma OneShardMoreUntouched(shardOf: string -> string, s: Store, mid: Store, front: seq<ShardKey>, at: ShardKey, records: VectorFile)
    requires Untouched(s, mid, front) && at !in front && at.1 != "" && forall a <- front :: a.1 != ""
    ensures Untouched(s, WriteShard(shardOf, mid, at, records), front + [at])
  {
    var s' := WriteShard(shardOf, mid, at, records);
    forall other | other !in front + [at]
      ensures FileOnDisk(s', other) == FileOnDisk(s, other) && (Loadable(s', other) <==> Loadable(s, other))
      ensures other.1 != "" ==> (HoldsShard(s', other) <==> HoldsShard(s, other))
    {
      PriorFiles(shardOf, mid, at, other);
    }
    forall model
      ensures (model, "") in s'.files <==> (model, "") in s.files || (WholeReached(s, front + [at], model) && Loadable(s, (model, "")))
    {
      PriorFiles(shardOf, mid, at, (model, ""));
      WholeReachedOneMore(s, front, at, model);
    }
  }

  lemma {:induction false} WriteShardsMemory(shardOf: string -> string, s: Store, shards: seq<ShardKey>, entries: Entries, key: VectorKey)
    requires Unique(shards) && forall at <- shards :: at.1 != ""
    ensures var s' := WriteShards(shardOf, s, shards, entries);
            && Untouched(s, s', shards)
            && MemoryAt(s', key) == if Reloaded(s, shards, key).Some? then Reloaded(s, shards, key) else MemoryAt(s, key)
  {
    if shards != [] {
      var n := |shards| - 1;
      var front, at := shards[..n], shards[n];
      assert shards == front + [at] && at !in front && (key.0, "") !in front;
      WriteShardsMemory(shardOf, s, front, entries, key);
      var mid := WriteShards(shardOf, s, front, entries);
      OneShardMoreUntouched(shardOf, s, mid, front, at, RecordsFor(shardOf, entries, at));
      PriorMemory(shardOf, mid, at, key);
      NextReload(s, mid, front, at, key);
    }
  }

  /** What the next shard reloads is the same, seen from the state before the batch. */
  lemma NextReload(s: Store, mid: Store, front: seq<ShardKey>, at: ShardKey, key: VectorKey)
    requires Untouched(s, mid, front) && at !in front && at.1 != "" && (key.0, "") !in front
    ensures FileOnDisk(mid, at) == FileOnDisk(s, at) && (HoldsShard(mid, at) <==> HoldsShard(s, at))
    ensures var whole := (key.0, "");
            && FileOnDisk(mid, whole) == FileOnDisk(s, whole)
            && (whole !in mid.files && key.1 in FileOnDisk(s, whole)
                <==> whole !in s.files && !WholeReached(s, front, key.0) && key.1 in FileOnDisk(s, whole))
  {
  }

  /** The adapter that kept a batch sees each of its vectors at once exactly when no file it loaded for the write, of any shard, had an older one last. */
  lemma KeptVectorVisibleInMemory(shardOf: string -> string, s: Store, entries: Entries, key: VectorKey)
    requires key in AsMap(entries) && forall fp :: shardOf(fp) != ""
    ensures var s' := Keep(shardOf, s, entries);
            key in s'.memory && (s'.memory[key] == AsMap(entries)[key] <==> !ReloadsOlder(shardOf, s, entries, key))
  {
    var shards, s0 := TouchedShards(shardOf, entries), s.(memory := s.memory + AsMap(entries));
    assert entries != [];
    TouchedAreShards(shardOf, entries);
    WriteShardsMemory(shardOf, s0, shards, entries, key);
    SameReload(s, s0, shards, key);
    assert Keep(shardOf, s, entries).memory == WriteShards(shardOf, s0, shards, entries).memory;
  }

  lemma TouchedAreShards(shardOf: string -> string, entries: Entries)
    requires forall fp :: shardOf(fp) != ""
    ensures forall at <- TouchedShards(shardOf, entries) :: at.1 != ""
  {
    var all := seq(|entries|, i requires 0 <= i < |entries| => ShardOfKey(shardOf, entries[i].0));
    forall at | at in TouchedShards(shardOf, entries) ensures at.1 != "" {
      assert at in all;
      var i :| 0 <= i < |all| && all[i] == at;
    }
  }

  lemma {:induction false} SameReload(s: Store, s0: Store, shards: seq<ShardKey>, key: VectorKey)
    requires s0.files == s.files && s0.shardFiles == s.shardFiles
    ensures Reloaded(s0, shards, key) == Reloaded(s, shards, key)
  {
    if shards != [] {
      SameReload(s, s0, shards[..|shards| - 1], key);
      forall at ensures FileOnDisk(s0, at) == FileOnDisk(s, at) && HoldsShard(s0, at) == HoldsShard(s, at) {
      }
    }
  }

  lemma TwoEntries(shardOf: string -> string, x: (VectorKey, VectorRecord), y: (VectorKey, VectorRecord))
    requires ShardOfKey(shardOf, x.0) != ShardOfKey(shardOf, y.0)
    ensures AsMap([x, y]) == map[x.0 := x.1][y.0 := y.1]
    ensures TouchedShards(shardOf, [x, y]) == [ShardOfKey(shardOf, x.0), ShardOfKey(shardOf, y.0)]
  {
    AsMapOneMore([], x.0, x.1);
    AsMapOneMore([x], y.0, y.1);
    TouchedOneMore(shardOf, [], x);
    TouchedOneMore(shardOf, [x], y);
    assert [] + [x] == [x] && [x] + [y] == [x, y];
    assert TouchedShards(shardOf, []) == [];
  }

  /** It need not be the vector's own shard: writing another one may load the monolithic file over it. */
  lemma AnotherShardReloadsOlder(shardOf: string -> string, s: Store, model: string, a: string, ra: VectorRecord, b: string, rb: VectorRecord)
    requires shardOf(a) != shardOf(b)
    requires HoldsShard(s, (model, shardOf(a))) && FromWhole(s, (model, shardOf(b)))
    requires (model, "") !in s.files && a in FileOnDisk(s, (model, "")) && FileOnDisk(s, (model, ""))[a] != ra
    ensures var entries := [((model, a), ra), ((model, b), rb)];
            (model, a) in AsMap(entries) && ReloadsOlder(shardOf, s, entries, (model, a))
  {
    var first, second := (model, shardOf(a)), (model, shardOf(b));
    TwoEntries(shardOf, ((model, a), ra), ((model, b), rb));
    assert [first, second][..1] == [first];
    assert !WholeReached(s, [first], model);
    assert Reloaded(s, [first, second], (model, a)) == Some(FileOnDisk(s, (model, ""))[a]);
  }

  datatype Event = Read(key: VectorKey) | Kept(entries: Entries) | Restart

  function After(shardOf: string -> string, s: Store, e: Event): Store {
    match e
    case Read(key) => Get(shardOf, s, key).0
    case Kept(entries) => Keep(shardOf, s, entries)
    case Restart => s.Restarted()
  }

  function Run(shardOf: string -> string, s: Store, events: seq<Event>): Store {
    if events == [] then s else After(shardOf, Run(shardOf, s, events[..|events| - 1]), events[|events| - 1])
  }

  /** Over any run that only keeps true vectors, every layer stays true and so does every answer. */
  lemma {:induction false} ReuseNeverChangesAVector(shardOf: string -> string, hash: string -> string, embed: (string, string) -> seq<real>,
                                                   s: Store, events: seq<Event>, key: VectorKey)
    requires Every(s, (k, r) => TrueVector(hash, embed, k, r))
    requires forall e :: e in events && e.Kept? ==> Records(AsMap(e.entries), (k, r) => TrueVector(hash, embed, k, r))
    ensures Every(Run(shardOf, s, events), (k, r) => TrueVector(hash, embed, k, r))
    ensures var answer := Get(shardOf, Run(shardOf, s, events), key).1;
            answer.Some? ==> TrueVector(hash, embed, key, answer.value)
  {
    var ok := (k, r) => TrueVector(hash, embed, k, r);
    if events != [] {
      var e := events[|events| - 1];
      ReuseNeverChangesAVector(shardOf, hash, embed, s, events[..|events| - 1], key);
      AfterKeepsEvery(shardOf, Run(shardOf, s, events[..|events| - 1]), e, ok);
    }
    GetKeepsEvery(shardOf, Run(shardOf, s, events), key, ok);
  }

  lemma KeepKeepsEvery(shardOf: string -> string, s: Store, entries: Entries, ok: (VectorKey, VectorRecord) -> bool)
    requires Every(s, ok) && Records(AsMap(entries), ok)
    ensures Every(Keep(shardOf, s, entries), ok)
  {
    if entries != [] {
      assert Records(s.memory + AsMap(entries), ok);
      WriteBatchKeepsEvery(shardOf, s.(memory := s.memory + AsMap(entries)), entries, ok);
    }
  }

  lemma AfterKeepsEvery(shardOf: string -> string, s: Store, e: Event, ok: (VectorKey, VectorRecord) -> bool)
    requires Every(s, ok) && (e.Kept? ==> Records(AsMap(e.entries), ok))
    ensures Every(After(shardOf, s, e), ok)
  {
    match e
    case Read(key) => GetKeepsEvery(shardOf, s, key, ok);
    case Kept(entries) => KeepKeepsEvery(shardOf, s, entries, ok);
    case Restart =>
  }

  lemma TouchedOneMore(shardOf: string -> string, entries: Entries, entry: (VectorKey, VectorRecord))
    ensures var shards, at := TouchedShards(shardOf, entries), ShardOfKey(shardOf, entry.0);
            TouchedShards(shardOf, entries + [entry]) == if at in shards then shards else shards + [at]
  {
    var more := entries + [entry];
    var all := seq(|more|, i requires 0 <= i < |more| => ShardOfKey(shardOf, more[i].0));
    var front := seq(|entries|, i requires 0 <= i < |entries| => ShardOfKey(shardOf, entries[i].0));
    assert all == front + [ShardOfKey(shardOf, entry.0)] && all[..|entries|] == front;
  }

  ghost predicate Grouped(shardOf: string -> string, entries: Entries, order: seq<ShardKey>, byShard: map<ShardKey, VectorFile>) {
    && order == TouchedShards(shardOf, entries)
    && (forall at :: at in byShard <==> at in order)
    && (forall at :: RecordsFor(shardOf, entries, at) == if at in byShard then byShard[at] else map[])
  }

  lemma GroupedOneMore(shardOf: string -> string, entries: Entries, entry: (VectorKey, VectorRecord),
                       order: seq<ShardKey>, byShard: map<ShardKey, VectorFile>)
    requires Grouped(shardOf, entries, order, byShard)
    ensures var at := ShardOfKey(shardOf, entry.0);
            var records := if at in byShard then byShard[at] else map[];
            Grouped(shardOf, entries + [entry], if at in byShard then order else order + [at], byShard[at := records[entry.0.1 := entry.1]])
  {
    TouchedOneMore(shardOf, entries, entry);
    var at := ShardOfKey(shardOf, entry.0);
    var byShard' := byShard[at := (if at in byShard then byShard[at] else map[])[entry.0.1 := entry.1]];
    forall a ensures RecordsFor(shardOf, entries + [entry], a) == if a in byShard' then byShard'[a] else map[] {
      RecordsOneMore(shardOf, entries, entry, a);
    }
  }

  lemma RecordsOneMore(shardOf: string -> string, entries: Entries, entry: (VectorKey, VectorRecord), at: ShardKey)
    ensures RecordsFor(shardOf, entries + [entry], at)
            == if ShardOfKey(shardOf, entry.0) == at then RecordsFor(shardOf, entries, at)[entry.0.1 := entry.1] else RecordsFor(shardOf, entries, at)
  {
    assert (entries + [entry])[..|entries|] == entries;
  }

  /** The part of the retrieval adapter that caches vectors. */
  class VectorCache {
    const shardOf: string -> string
    var memory: map<VectorKey, VectorRecord>
    var files: map<ShardKey, VectorFile>
    var entryFiles: map<VectorKey, VectorRecord>
    var shardFiles: map<ShardKey, VectorFile>
    var legacyFiles: map<VectorKey, VectorRecord>

    ghost function State(): Store
      reads this
    {
      Store(memory, files, entryFiles, shardFiles, legacyFiles)
    }

    /** A newly started adapter over the files of an earlier one. */
    constructor (shardOf: string -> string, disk: Store)
      ensures this.shardOf == shardOf && State() == disk.Restarted()
    {
      this.shardOf := shardOf;
      memory, files := map[], map[];
      entryFiles, shardFiles, legacyFiles := disk.entryFiles, disk.shardFiles, disk.legacyFiles;
    }

    method LoadVectorCacheFile(at: ShardKey) returns (file: VectorFile)
      modifies this`memory, this`files
      ensures State() == LoadFile(old(State()), at) && file == FileOnDisk(old(State()), at)
    {
      if at !in shardFiles || !Readable(shardFiles[at]) {
        return map[];
      }
      file := shardFiles[at];
      files := files[at := file];
      CopyIntoMemory(at.0, file);
    }

    method CopyIntoMemory(model: string, file: VectorFile)
      modifies this`memory
      ensures memory == old(memory) + Keyed(model, file)
    {
      var todo := file.Keys;
      while todo != {}
        invariant todo <= file.Keys
        invariant memory == old(memory) + Keyed(model, file - todo)
      {
        var fp :| fp in todo;
        KeyedOneMore(old(memory), model, file, todo, fp);
        memory := memory[(model, fp) := file[fp]];
        todo := todo - {fp};
      }
      assert file - todo == file;
    }

    method GetVectorCache(key: VectorKey) returns (r: Option<VectorRecord>)
      modifies this`memory, this`files
      ensures (State(), r) == Get(shardOf, old(State()), key)
    {
      if key in memory {
        return Some(memory[key]);
      }
      if key in entryFiles && entryFiles[key].vector != [] {
        memory := memory[key := entryFiles[key]];
        return Some(entryFiles[key]);
      }
      var at, whole := (key.0, shardOf(key.1)), (key.0, "");
      var cached: VectorFile;
      if at in files { cached := files[at]; } else { cached := LoadVectorCacheFile(at); }
      if key.1 in cached {
        memory := memory[key := cached[key.1]];
        return Some(cached[key.1]);
      }
      if whole in files { cached := files[whole]; } else { cached := LoadVectorCacheFile(whole); }
      if key.1 in cached {
        memory := memory[key := cached[key.1]];
        return Some(cached[key.1]);
      }
      if key in legacyFiles && legacyFiles[key].vector != [] {
        memory := memory[key := legacyFiles[key]];
        return Some(legacyFiles[key]);
      }
      return None;
    }

    method KeepInMemory(key: VectorKey, record: VectorRecord)
      modifies this`memory
      ensures memory == old(memory)[key := record]
    {
      memory := memory[key := record];
    }

    method WriteVectorCacheShard(at: ShardKey, records: VectorFile)
      modifies this`memory, this`files, this`shardFiles
      ensures State() == WriteShard(shardOf, old(State()), at, records)
    {
      var persisted: VectorFile := if at in files then files[at] else map[];
      if persisted == map[] {
        persisted := LoadVectorCacheFile(at);
        if persisted == map[] {
          var whole, monolithic := (at.0, ""), map[];
          if whole in files { monolithic := files[whole]; } else { monolithic := LoadVectorCacheFile(whole); }
          persisted := OfShard(shardOf, monolithic, at.1);
        }
      }
      persisted := persisted + records;
      files := files[at := persisted];
      shardFiles := shardFiles[at := persisted];
    }

    method GroupByShard(entries: Entries) returns (order: seq<ShardKey>, byShard: map<ShardKey, VectorFile>)
      ensures order == TouchedShards(shardOf, entries)
      ensures forall at :: at in order ==> at in byShard && byShard[at] == RecordsFor(shardOf, entries, at)
    {
      order, byShard := [], map[];
      for i := 0 to |entries|
        invariant Grouped(shardOf, entries[..i], order, byShard)
      {
        assert entries[..i + 1] == entries[..i] + [entries[i]];
        GroupedOneMore(shardOf, entries[..i], entries[i], order, byShard);
        var at := ShardOfKey(shardOf, entries[i].0);
        var records := if at in byShard then byShard[at] else map[];
        order := if at in byShard then order else order + [at];
        byShard := byShard[at := records[entries[i].0.1 := entries[i].1]];
      }
      assert entries[..|entries|] == entries;
    }

    method UnlinkEntryFiles(entries: Entries)
      modifies this`entryFiles
      ensures entryFiles == old(entryFiles) - AsMap(entries).Keys
    {
      for i := 0 to |entries|
        invariant entryFiles == old(entryFiles) - AsMap(entries[..i]).Keys
      {
        assert entries[..i + 1][..i] == entries[..i];
        entryFiles := entryFiles - {entries[i].0};
      }
      assert entries[..|entries|] == entries;
    }

    method WriteVectorCacheBatch(entries: Entries)
      modifies this`memory, this`files, this`entryFiles, this`shardFiles
      ensures State() == WriteBatch(shardOf, old(State()), entries)
    {
      var order, byShard := GroupByShard(entries);
      for j := 0 to |order|
        invariant State() == WriteShards(shardOf, old(State()), order[..j], entries)
      {
        assert order[..j + 1][..j] == order[..j];
        WriteVectorCacheShard(order[j], byShard[order[j]]);
      }
      assert order[..|order|] == order;
      UnlinkEntryFiles(entries);
    }
  }

  lemma KeyedOneMore(m: map<VectorKey, VectorRecord>, model: string, file: VectorFile, todo: set<string>, fp: string)
    requires todo <= file.Keys && fp in todo
    ensures (m + Keyed(model, file - todo))[(model, fp) := file[fp]] == m + Keyed(model, file - (todo - {fp}))
  {
  }
}
