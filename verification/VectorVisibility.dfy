/**
 Which record a running adapter answers with.  Files loaded on the way, for a lookup or for a write,
 copy all their records into memory over what was there; so over a run memory may fall behind the
 disk.  When exactly it does is said here.
 */
module VectorVisibility {
  import opened Prelude
  import opened VectorCaches

  /** The record that loading files on the way of a lookup, and its answer, bring into memory for a key. */
  function BroughtByRead(shardOf: string -> string, s: Store, read: VectorKey, key: VectorKey): Option<VectorRecord> {
    var at, whole := (read.0, shardOf(read.1)), (read.0, "");
    if read in s.memory then None
    else if read == key then Get(shardOf, s, read).1
    else if (read in s.entryFiles && s.entryFiles[read].vector != []) || read.0 != key.0 then None
    else if read.1 !in Contents(s, at) && whole !in s.files && key.1 in FileOnDisk(s, whole) then Some(FileOnDisk(s, whole)[key.1])
    else if at !in s.files && key.1 in FileOnDisk(s, at) then Some(FileOnDisk(s, at)[key.1])
    else None
  }

  /** The same for keeping a batch: the record of the last file loaded that knows the key, or the one kept. */
  function BroughtByKeep(shardOf: string -> string, s: Store, entries: Entries, key: VectorKey): Option<VectorRecord> {
    var reloaded := Reloaded(s, TouchedShards(shardOf, entries), key);
    if reloaded.Some? then reloaded
    else if key in AsMap(entries) then Some(AsMap(entries)[key])
    else None
  }

  function Brought(shardOf: string -> string, s: Store, e: Event, key: VectorKey): Option<VectorRecord> {
    match e
    case Read(read) => BroughtByRead(shardOf, s, read, key)
    case Kept(entries) => BroughtByKeep(shardOf, s, entries, key)
    case Restart => None
  }

  lemma OpenedMemory(s: Store, at: ShardKey, key: VectorKey)
    ensures MemoryAt(Opened(s, at), key)
            == if at !in s.files && at.0 == key.0 && key.1 in FileOnDisk(s, at) then Some(FileOnDisk(s, at)[key.1]) else MemoryAt(s, key)
  {
    LoadedMemory(s, at, key);
  }

  lemma OpenedFiles(s: Store, at: ShardKey, other: ShardKey)
    requires other != at
    ensures var s' := Opened(s, at); FileOnDisk(s', other) == FileOnDisk(s, other) && (other in s'.files <==> other in s.files)
  {
  }

  /** What opening a shard file and then the monolithic file leaves in memory. */
  lemma BothOpenedMemory(s: Store, at: ShardKey, whole: ShardKey, key: VectorKey)
    requires at != whole && at.0 == whole.0
    ensures MemoryAt(Opened(Opened(s, at), whole), key)
            == if whole !in s.files && whole.0 == key.0 && key.1 in FileOnDisk(s, whole) then Some(FileOnDisk(s, whole)[key.1])
               else if at !in s.files && at.0 == key.0 && key.1 in FileOnDisk(s, at) then Some(FileOnDisk(s, at)[key.1])
               else MemoryAt(s, key)
    ensures Contents(Opened(s, at), whole) == Contents(s, whole)
  {
    OpenedMemory(s, at, key);
    OpenedFiles(s, at, whole);
    OpenedMemory(Opened(s, at), whole, key);
  }

  lemma RememberedMemory(s: Store, read: VectorKey, record: VectorRecord, key: VectorKey)
    ensures MemoryAt(Remember(s, read, record).0, key) == if read == key then Some(record) else MemoryAt(s, key)
  {
  }

  /** A found record is in memory afterwards; a miss has loaded no file that knows the key. */
  lemma OwnReadMemory(shardOf: string -> string, s: Store, key: VectorKey)
    requires (forall fp :: shardOf(fp) != "") && key !in s.memory
    ensures MemoryAt(Get(shardOf, s, key).0, key) == Get(shardOf, s, key).1
  {
    BothOpenedMemory(s, (key.0, shardOf(key.1)), (key.0, ""), key);
    OpenedMemory(s, (key.0, shardOf(key.1)), key);
  }

  lemma OtherHitMemory(shardOf: string -> string, s: Store, read: VectorKey, key: VectorKey)
    requires (forall fp :: shardOf(fp) != "") && read != key && read !in s.memory
    requires !(read in s.entryFiles && s.entryFiles[read].vector != []) && read.1 in Contents(s, (read.0, shardOf(read.1)))
    ensures MemoryAt(Get(shardOf, s, read).0, key) == MemoryAt(Opened(s, (read.0, shardOf(read.1))), key)
  {
    var at := (read.0, shardOf(read.1));
    RememberedMemory(Opened(s, at), read, Contents(s, at)[read.1], key);
  }

  lemma OtherMissMemory(shardOf: string -> string, s: Store, read: VectorKey, key: VectorKey)
    requires (forall fp :: shardOf(fp) != "") && read != key && read !in s.memory
    requires !(read in s.entryFiles && s.entryFiles[read].vector != []) && read.1 !in Contents(s, (read.0, shardOf(read.1)))
    ensures MemoryAt(Get(shardOf, s, read).0, key) == MemoryAt(Opened(Opened(s, (read.0, shardOf(read.1))), (read.0, "")), key)
  {
  }

  lemma OtherReadMemory(shardOf: string -> string, s: Store, read: VectorKey, key: VectorKey)
    requires (forall fp :: shardOf(fp) != "") && read != key && read !in s.memory
    requires !(read in s.entryFiles && s.entryFiles[read].vector != [])
    ensures MemoryAt(Get(shardOf, s, read).0, key)
            == if BroughtByRead(shardOf, s, read, key).Some? then BroughtByRead(shardOf, s, read, key) else MemoryAt(s, key)
  {
    var at, whole := (read.0, shardOf(read.1)), (read.0, "");
    if read.1 in Contents(s, at) {
      OpenedMemory(s, at, key);
      OtherHitMemory(shardOf, s, read, key);
    } else {
      BothOpenedMemory(s, at, whole, key);
      OtherMissMemory(shardOf, s, read, key);
    }
  }

  lemma ReadMemory(shardOf: string -> string, s: Store, read: VectorKey, key: VectorKey)
    requires forall fp :: shardOf(fp) != ""
    ensures MemoryAt(Get(shardOf, s, read).0, key)
            == if BroughtByRead(shardOf, s, read, key).Some? then BroughtByRead(shardOf, s, read, key) else MemoryAt(s, key)
  {
    if read !in s.memory {
      if read == key {
        OwnReadMemory(shardOf, s, key);
      } else if read in s.entryFiles && s.entryFiles[read].vector != [] {
        RememberedMemory(s, read, s.entryFiles[read], key);
      } else {
        OtherReadMemory(shardOf, s, read, key);
      }
    }
  }

  lemma KeepMemory(shardOf: string -> string, s: Store, entries: Entries, key: VectorKey)
    requires forall fp :: shardOf(fp) != ""
    ensures MemoryAt(Keep(shardOf, s, entries), key)
            == if BroughtByKeep(shardOf, s, entries, key).Some? then BroughtByKeep(shardOf, s, entries, key) else MemoryAt(s, key)
  {
    var shards, s0 := TouchedShards(shardOf, entries), s.(memory := s.memory + AsMap(entries));
    TouchedAreShards(shardOf, entries);
    SameReload(s, s0, shards, key);
    if entries == [] {
      assert shards == [];
    } else {
      WriteShardsMemory(shardOf, s0, shards, entries, key);
      assert Keep(shardOf, s, entries).memory == WriteShards(shardOf, s0, shards, entries).memory;
    }
  }

  /** What memory holds for a key after a run: what the last event brought that brought anything, since the last restart. */
  function LastBrought(shardOf: string -> string, s: Store, events: seq<Event>, key: VectorKey): Option<VectorRecord> {
    if events == [] then MemoryAt(s, key)
    else
      var front, e := events[..|events| - 1], events[|events| - 1];
      var brought := Brought(shardOf, Run(shardOf, s, front), e, key);
      if e.Restart? then None
      else if brought.Some? then brought
      else LastBrought(shardOf, s, front, key)
  }

  /** The record last kept for a key, or what the files had at first. */
  function LastKept(shardOf: string -> string, s: Store, events: seq<Event>, key: VectorKey): Option<VectorRecord> {
    if events == [] then Lookup(shardOf, s, key)
    else
      var front, e := events[..|events| - 1], events[|events| - 1];
      if e.Kept? && key in AsMap(e.entries) then Some(AsMap(e.entries)[key]) else LastKept(shardOf, s, front, key)
  }

  lemma {:induction false} RunMemory(shardOf: string -> string, s: Store, events: seq<Event>, key: VectorKey)
    requires forall fp :: shardOf(fp) != ""
    ensures MemoryAt(Run(shardOf, s, events), key) == LastBrought(shardOf, s, events, key)
  {
    if events != [] {
      var front, e := events[..|events| - 1], events[|events| - 1];
      RunMemory(shardOf, s, front, key);
      var before := Run(shardOf, s, front);
      match e
      case Read(read) => ReadMemory(shardOf, before, read, key);
      case Kept(entries) => KeepMemory(shardOf, before, entries, key);
      case Restart =>
    }
  }

  ghost predicate KeepsVectors(events: seq<Event>) {
    forall e :: e in events && e.Kept? ==> HasVectors(AsMap(e.entries))
  }

  lemma StepOnDisk(shardOf: string -> string, s: Store, e: Event, key: VectorKey)
    requires (forall fp :: shardOf(fp) != "") && Coherent(s) && (e.Kept? ==> HasVectors(AsMap(e.entries)))
    ensures var s' := After(shardOf, s, e);
            && Coherent(s')
            && Lookup(shardOf, s', key) == if e.Kept? && key in AsMap(e.entries) then Some(AsMap(e.entries)[key]) else Lookup(shardOf, s, key)
  {
    match e
    case Read(read) =>
      GetLeavesFiles(shardOf, s, read);
      SameFilesSameLookup(shardOf, s, Get(shardOf, s, read).0, key);
    case Kept(entries) =>
      if entries != [] {
        var s1 := s.(memory := s.memory + AsMap(entries));
        BatchWriteOverlaysLookup(shardOf, s1, entries, key);
        SameFilesSameLookup(shardOf, s, s1, key);
      }
    case Restart => SameFilesSameLookup(shardOf, s, s.Restarted(), key);
  }

  lemma {:induction false} RunOnDisk(shardOf: string -> string, s: Store, events: seq<Event>, key: VectorKey)
    requires (forall fp :: shardOf(fp) != "") && Coherent(s) && KeepsVectors(events)
    ensures Coherent(Run(shardOf, s, events)) && Lookup(shardOf, Run(shardOf, s, events), key) == LastKept(shardOf, s, events, key)
  {
    if events != [] {
      var front, e := events[..|events| - 1], events[|events| - 1];
      assert e in events && forall f <- front :: f in events;
      RunOnDisk(shardOf, s, front, key);
      StepOnDisk(shardOf, Run(shardOf, s, front), e, key);
    }
  }

  // ----- what stands in shard files -----

  ghost predicate OwnKeys(shardOf: string -> string, shard: string, file: VectorFile) {
    shard != "" ==> forall fp <- file :: shardOf(fp) == shard
  }

  /** Every shard file, on disk and as parsed, holds only keys of its shard. */
  ghost predicate Sharded(shardOf: string -> string, s: Store) {
    && (forall at :: at in s.files ==> OwnKeys(shardOf, at.1, s.files[at]))
    && (forall at :: at in s.shardFiles ==> OwnKeys(shardOf, at.1, s.shardFiles[at]))
  }

  lemma OpenedStaysSharded(shardOf: string -> string, s: Store, at: ShardKey)
    requires Sharded(shardOf, s)
    ensures Sharded(shardOf, LoadFile(s, at)) && Sharded(shardOf, Opened(s, at))
    ensures OwnKeys(shardOf, at.1, FileOnDisk(s, at))
  {
  }

  lemma RecordsAreOwn(shardOf: string -> string, entries: Entries, at: ShardKey)
    ensures OwnKeys(shardOf, at.1, RecordsFor(shardOf, entries, at))
  {
    forall fp | fp in RecordsFor(shardOf, entries, at) ensures shardOf(fp) == at.1 {
      RecordsForMembers(shardOf, entries, at, fp);
    }
  }

  lemma PriorIsOwn(shardOf: string -> string, s: Store, at: ShardKey)
    requires Sharded(shardOf, s)
    ensures var (s1, prior) := Prior(shardOf, s, at); Sharded(shardOf, s1) && OwnKeys(shardOf, at.1, prior)
  {
    OpenedStaysSharded(shardOf, s, at);
    OpenedStaysSharded(shardOf, LoadFile(s, at), (at.0, ""));
  }

  lemma PersistStaysSharded(shardOf: string -> string, s: Store, at: ShardKey, prior: VectorFile, records: VectorFile)
    requires Sharded(shardOf, s) && OwnKeys(shardOf, at.1, prior) && OwnKeys(shardOf, at.1, records)
    ensures Sharded(shardOf, Persist(s, at, prior + records))
  {
  }

  lemma WriteShardStaysSharded(shardOf: string -> string, s: Store, at: ShardKey, entries: Entries)
    requires Sharded(shardOf, s)
    ensures Sharded(shardOf, WriteShard(shardOf, s, at, RecordsFor(shardOf, entries, at)))
  {
    RecordsAreOwn(shardOf, entries, at);
    PriorIsOwn(shardOf, s, at);
    var (s1, prior) := Prior(shardOf, s, at);
    PersistStaysSharded(shardOf, s1, at, prior, RecordsFor(shardOf, entries, at));
  }

  lemma {:induction false} WriteShardsStaySharded(shardOf: string -> string, s: Store, shards: seq<ShardKey>, entries: Entries)
    requires Sharded(shardOf, s)
    ensures Sharded(shardOf, WriteShards(shardOf, s, shards, entries))
  {
    if shards != [] {
      WriteShardsStaySharded(shardOf, s, shards[..|shards| - 1], entries);
      WriteShardStaysSharded(shardOf, WriteShards(shardOf, s, shards[..|shards| - 1], entries), shards[|shards| - 1], entries);
    }
  }

  lemma RememberStaysSharded(shardOf: string -> string, s: Store, key: VectorKey, record: VectorRecord)
    requires Sharded(shardOf, s)
    ensures Sharded(shardOf, Remember(s, key, record).0)
  {
  }

  lemma ReadStaysSharded(shardOf: string -> string, s: Store, key: VectorKey)
    requires Sharded(shardOf, s)
    ensures Sharded(shardOf, Get(shardOf, s, key).0)
  {
    if key in s.memory {
    } else if key in s.entryFiles && s.entryFiles[key].vector != [] {
      RememberStaysSharded(shardOf, s, key, s.entryFiles[key]);
    } else {
      var at, whole := (key.0, shardOf(key.1)), (key.0, "");
      var s1 := Opened(s, at);
      var s2 := Opened(s1, whole);
      OpenedStaysSharded(shardOf, s, at);
      OpenedStaysSharded(shardOf, s1, whole);
      if key.1 in Contents(s, at) {
        RememberStaysSharded(shardOf, s1, key, Contents(s, at)[key.1]);
      } else if key.1 in Contents(s1, whole) {
        RememberStaysSharded(shardOf, s2, key, Contents(s1, whole)[key.1]);
      } else if key in s.legacyFiles && s.legacyFiles[key].vector != [] {
        RememberStaysSharded(shardOf, s2, key, s.legacyFiles[key]);
      }
    }
  }

  lemma KeepStaysSharded(shardOf: string -> string, s: Store, entries: Entries)
    requires Sharded(shardOf, s)
    ensures Sharded(shardOf, Keep(shardOf, s, entries))
  {
    if entries != [] {
      WriteShardsStaySharded(shardOf, s.(memory := s.memory + AsMap(entries)), TouchedShards(shardOf, entries), entries);
    }
  }

  lemma StepStaysSharded(shardOf: string -> string, s: Store, e: Event)
    requires Sharded(shardOf, s)
    ensures Sharded(shardOf, After(shardOf, s, e))
  {
    match e
    case Read(key) => ReadStaysSharded(shardOf, s, key);
    case Kept(entries) => KeepStaysSharded(shardOf, s, entries);
    case Restart =>
  }

  /** Over any run no shard file takes in another shard's keys, whatever the monolithic file holds. */
  lemma {:induction false} RunStaysSharded(shardOf: string -> string, s: Store, events: seq<Event>)
    requires Sharded(shardOf, s)
    ensures Sharded(shardOf, Run(shardOf, s, events))
  {
    if events != [] {
      RunStaysSharded(shardOf, s, events[..|events| - 1]);
      StepStaysSharded(shardOf, Run(shardOf, s, events[..|events| - 1]), events[|events| - 1]);
    }
  }

  // ----- which record is answered -----

  /** What is not in memory is answered from the files. */
  lemma AnswerWithoutMemory(shardOf: string -> string, s: Store, key: VectorKey)
    requires Coherent(s) && key !in s.memory
    ensures Get(shardOf, s, key).1 == Lookup(shardOf, s, key)
  {
    var at, whole := (key.0, shardOf(key.1)), (key.0, "");
    OpenedStaysCoherent(s, at);
    GetFromFiles(shardOf, s, key);
    CoherentContents(s, at);
    CoherentContents(Opened(s, at), whole);
  }

  lemma CoherentContents(s: Store, at: ShardKey)
    requires Coherent(s)
    ensures Contents(s, at) == FileOnDisk(s, at)
  {
  }

  /**
   Over any run of lookups, batches and restarts: the adapter answers with the record last kept exactly
   when the record last brought into memory since the last restart, if there is one, is that record.
   */
  lemma AnswerIsLastKeptIffLastBroughtIs(shardOf: string -> string, s: Store, events: seq<Event>, key: VectorKey)
    requires (forall fp :: shardOf(fp) != "") && Coherent(s) && KeepsVectors(events)
    ensures var brought, kept := LastBrought(shardOf, s, events, key), LastKept(shardOf, s, events, key);
            Get(shardOf, Run(shardOf, s, events), key).1 == kept <==> (brought.Some? ==> brought == kept)
  {
    RunMemory(shardOf, s, events, key);
    RunOnDisk(shardOf, s, events, key);
    var s' := Run(shardOf, s, events);
    if key !in s'.memory {
      AnswerWithoutMemory(shardOf, s', key);
    }
  }

  /** So a restart always brings the last kept record back. */
  lemma RestartAnswersLastKept(shardOf: string -> string, s: Store, events: seq<Event>, key: VectorKey)
    requires (forall fp :: shardOf(fp) != "") && Coherent(s) && KeepsVectors(events)
    ensures Get(shardOf, Run(shardOf, s, events + [Restart]), key).1 == LastKept(shardOf, s, events, key)
  {
    var all := events + [Restart];
    assert all[..|all| - 1] == events;
    AnswerIsLastKeptIffLastBroughtIs(shardOf, s, all, key);
  }

  /** Keeping one record of a shard that is held loads nothing. */
  lemma OneKept(shardOf: string -> string, s: Store, model: string, a: string, ra: VectorRecord)
    requires HoldsShard(s, (model, shardOf(a))) && shardOf(a) != ""
    ensures var at, s1 := (model, shardOf(a)), Keep(shardOf, s, [((model, a), ra)]);
            && s1.memory == s.memory[(model, a) := ra] && s1.entryFiles == s.entryFiles - {(model, a)}
            && s1.files == s.files[at := s.files[at][a := ra]] && s1.shardFiles == s.shardFiles[at := s.files[at][a := ra]]
  {
    var entries, at := [((model, a), ra)], (model, shardOf(a));
    OneEntry(shardOf, model, a, ra);
    var s0 := s.(memory := s.memory + AsMap(entries));
    assert s.memory + AsMap(entries) == s.memory[(model, a) := ra];
    assert WriteShards(shardOf, s0, [], entries) == s0;
    assert [at][..0] == [];
    assert WriteShards(shardOf, s0, [at], entries) == WriteShard(shardOf, s0, at, map[a := ra]);
    assert s.files[at] + map[a := ra] == s.files[at][a := ra];
  }

  lemma OneEntry(shardOf: string -> string, model: string, a: string, ra: VectorRecord)
    ensures var entries, at := [((model, a), ra)], (model, shardOf(a));
            && AsMap(entries) == map[(model, a) := ra] && TouchedShards(shardOf, entries) == [at]
            && RecordsFor(shardOf, entries, at) == map[a := ra]
  {
    var entries := [((model, a), ra)];
    AsMapOneMore([], (model, a), ra);
    TouchedOneMore(shardOf, [], entries[0]);
    RecordsOneMore(shardOf, [], entries[0], (model, shardOf(a)));
    assert [] + entries == entries;
    assert TouchedShards(shardOf, []) == [];
  }

  /**
   A lookup of another key may hide a record that was kept and visible: it opens the monolithic file, which
   still has the older one.
   */
  lemma AnotherLookupHidesIt(shardOf: string -> string, s: Store, model: string, a: string, ra: VectorRecord, b: string)
    requires a != b && (forall fp :: shardOf(fp) != "") && Coherent(s) && ra.vector != []
    requires HoldsShard(s, (model, shardOf(a))) && (model, "") !in s.files
    requires a in FileOnDisk(s, (model, "")) && FileOnDisk(s, (model, ""))[a] != ra
    requires (model, b) !in s.memory && (model, b) !in s.entryFiles && b !in FileOnDisk(s, (model, shardOf(b)))
    ensures var s1 := After(shardOf, s, Kept([((model, a), ra)]));
            && Get(shardOf, s1, (model, a)).1 == Some(ra)
            && Get(shardOf, After(shardOf, s1, Read((model, b))), (model, a)).1 == Some(FileOnDisk(s, (model, ""))[a])
  {
    var at, s1 := (model, shardOf(a)), Keep(shardOf, s, [((model, a), ra)]);
    OneKept(shardOf, s, model, a, ra);
    KeptLeaves(shardOf, s, s1, model, a, ra, b);
    ReadMemory(shardOf, s1, (model, b), (model, a));
  }

  lemma KeptLeaves(shardOf: string -> string, s: Store, s1: Store, model: string, a: string, ra: VectorRecord, b: string)
    requires a != b && (forall fp :: shardOf(fp) != "") && Coherent(s)
    requires HoldsShard(s, (model, shardOf(a))) && b !in FileOnDisk(s, (model, shardOf(b)))
    requires var at := (model, shardOf(a));
             s1.files == s.files[at := s.files[at][a := ra]] && s1.shardFiles == s.shardFiles[at := s.files[at][a := ra]]
    ensures FileOnDisk(s1, (model, "")) == FileOnDisk(s, (model, "")) && ((model, "") in s1.files <==> (model, "") in s.files)
    ensures b !in Contents(s1, (model, shardOf(b)))
  {
  }
}
