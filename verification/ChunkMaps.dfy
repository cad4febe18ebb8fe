/**
 The maps the chunker keeps from build to build: chunks by file, the file of each chunk id, and what
 the manifests know of each file.  Files are dropped and installed one at a time; the client's quick
 selection of changed chunks relies on the maps being exact inverses.
 */
module ChunkMaps {
  import opened Prelude
  import opened GpuClient

  /** `lexical` and `index` stand for the manifest entries of a file, `signatures` for the semantic signature of a chunk. */
  datatype Maps = Maps(
    lexical: map<string, string>, index: map<string, string>, byFile: map<string, seq<Chunk>>,
    signatures: map<string, string>, fileOf: map<string, string>)

  function Id(c: Chunk): string { c.upload.id }

  function IdsIn(chunks: seq<Chunk>): set<string> {
    set c | c in chunks :: Id(c)
  }

  ghost predicate UniqueChunkIds(chunks: seq<Chunk>) {
    forall i, j :: 0 <= i < j < |chunks| ==> Id(chunks[i]) != Id(chunks[j])
  }

  // ----- what the steps do -----

  function Drop(m: Maps, key: string): Maps {
    var stale := if key in m.byFile then IdsIn(m.byFile[key]) else {};
    Maps(m.lexical - {key}, m.index - {key}, m.byFile - {key}, m.signatures - stale, m.fileOf - stale)
  }

  function FilesOf(chunks: seq<Chunk>, key: string): map<string, string> {
    map id | id in IdsIn(chunks) :: key
  }

  function SignaturesOf(chunks: seq<Chunk>, signatureOf: Chunk -> string): map<string, string> {
    if chunks == [] then map[]
    else SignaturesOf(chunks[..|chunks| - 1], signatureOf)[Id(chunks[|chunks| - 1]) := signatureOf(chunks[|chunks| - 1])]
  }

  /** What is installed for a file: its rows, their manifest entries if there are any, and signatures if they were cached. */
  datatype Bundle = Bundle(rows: seq<Chunk>, entry: Option<(string, string)>, signatures: Option<map<string, string>>)

  function Install(m: Maps, key: string, b: Bundle, signatureOf: Chunk -> string): Maps {
    var added := if b.signatures.Some? then b.signatures.value else SignaturesOf(b.rows, signatureOf);
    var m1 := m.(signatures := m.signatures + added);
    if b.entry.None? then m1
    else m1.(lexical := m.lexical[key := b.entry.value.0], index := m.index[key := b.entry.value.1],
             byFile := m.byFile[key := b.rows], fileOf := m.fileOf + FilesOf(b.rows, key))
  }

  // ----- what they keep -----

  /** A chunk id has a file exactly when that file lists a chunk with it. */
  ghost predicate Inverse(m: Maps) {
    forall id, key :: (id in m.fileOf && m.fileOf[id] == key) <==> (key in m.byFile && id in IdsIn(m.byFile[key]))
  }

  ghost predicate Exact(m: Maps) {
    && Inverse(m)
    && m.lexical.Keys == m.index.Keys == m.byFile.Keys
    && m.signatures.Keys == m.fileOf.Keys
    && (forall key <- m.byFile :: UniqueChunkIds(m.byFile[key]))
    && "" !in m.byFile
  }

  lemma DroppedInverse(m: Maps, key: string)
    requires Inverse(m)
    ensures Inverse(Drop(m, key))
  {
    var m' := Drop(m, key);
    forall id, k ensures (id in m'.fileOf && m'.fileOf[id] == k) <==> (k in m'.byFile && id in IdsIn(m'.byFile[k])) {
      assert (id in m.fileOf && m.fileOf[id] == k) <==> (k in m.byFile && id in IdsIn(m.byFile[k]));
      assert (id in m.fileOf && m.fileOf[id] == key) <==> (key in m.byFile && id in IdsIn(m.byFile[key]));
    }
  }

  lemma DropKeepsExact(m: Maps, key: string)
    requires Exact(m)
    ensures Exact(Drop(m, key)) && key !in Drop(m, key).byFile
  {
    DroppedInverse(m, key);
    DroppedKeys(m, key);
  }

  lemma DroppedKeys(m: Maps, key: string)
    requires m.lexical.Keys == m.index.Keys == m.byFile.Keys && m.signatures.Keys == m.fileOf.Keys
    ensures var m' := Drop(m, key); m'.lexical.Keys == m'.index.Keys == m'.byFile.Keys && m'.signatures.Keys == m'.fileOf.Keys
  {
  }

  lemma {:induction false} SignatureKeys(chunks: seq<Chunk>, signatureOf: Chunk -> string)
    ensures SignaturesOf(chunks, signatureOf).Keys == IdsIn(chunks)
  {
    if chunks != [] {
      SignatureKeys(chunks[..|chunks| - 1], signatureOf);
      assert chunks == chunks[..|chunks| - 1] + [chunks[|chunks| - 1]];
    }
  }

  /** Rows may be installed whose ids are new, once the old state of the file is dropped. */
  ghost predicate Installable(m: Maps, key: string, b: Bundle) {
    && key != "" && key !in m.byFile && UniqueChunkIds(b.rows)
    && forall c <- b.rows :: Id(c) !in m.fileOf
  }

  /** Manifest entries come with rows, and cached signatures are those of the rows. */
  ghost predicate Consistent(b: Bundle) {
    && (b.entry.None? ==> b.rows == [])
    && (b.signatures.Some? ==> b.signatures.value.Keys == IdsIn(b.rows))
  }

  lemma InstalledInverse(m: Maps, key: string, b: Bundle, signatureOf: Chunk -> string)
    requires Inverse(m) && Installable(m, key, b)
    ensures Inverse(Install(m, key, b, signatureOf))
  {
    var m' := Install(m, key, b, signatureOf);
    forall id, k ensures (id in m'.fileOf && m'.fileOf[id] == k) <==> (k in m'.byFile && id in IdsIn(m'.byFile[k])) {
      assert (id in m.fileOf && m.fileOf[id] == k) <==> (k in m.byFile && id in IdsIn(m.byFile[k]));
      if id in IdsIn(b.rows) {
        assert id !in m.fileOf;
      }
    }
  }

  lemma InstalledKeys(m: Maps, key: string, b: Bundle, signatureOf: Chunk -> string)
    requires m.lexical.Keys == m.index.Keys == m.byFile.Keys && m.signatures.Keys == m.fileOf.Keys && Consistent(b)
    ensures var m' := Install(m, key, b, signatureOf);
            m'.lexical.Keys == m'.index.Keys == m'.byFile.Keys && m'.signatures.Keys == m'.fileOf.Keys
  {
    SignatureKeys(b.rows, signatureOf);
    assert FilesOf(b.rows, key).Keys == IdsIn(b.rows);
  }

  /** Installing after a drop keeps the maps exact when the bundle is consistent. */
  lemma InstallKeepsExact(m: Maps, key: string, b: Bundle, signatureOf: Chunk -> string)
    requires Exact(m) && Installable(m, key, b) && Consistent(b)
    ensures Exact(Install(m, key, b, signatureOf))
  {
    InstalledInverse(m, key, b, signatureOf);
    InstalledKeys(m, key, b, signatureOf);
  }

  // ----- runs -----

  datatype Step = Remove(key: string) | Replace(key: string, bundle: Bundle)

  function After(m: Maps, step: Step, signatureOf: Chunk -> string): Maps {
    match step
    case Remove(key) => Drop(m, key)
    case Replace(key, bundle) => Install(Drop(m, key), key, bundle, signatureOf)
  }

  function Run(m: Maps, steps: seq<Step>, signatureOf: Chunk -> string): Maps {
    if steps == [] then m else After(Run(m, steps[..|steps| - 1], signatureOf), steps[|steps| - 1], signatureOf)
  }

  function Removals(keys: seq<string>): seq<Step> {
    seq(|keys|, i requires 0 <= i < |keys| => Remove(keys[i]))
  }

  /** Each bundle is consistent and brings ids no other file has at that time. */
  ghost predicate Proper(m: Maps, steps: seq<Step>, signatureOf: Chunk -> string) {
    forall i :: 0 <= i < |steps| && steps[i].Replace? ==>
      Consistent(steps[i].bundle) && Installable(Drop(Run(m, steps[..i], signatureOf), steps[i].key), steps[i].key, steps[i].bundle)
  }

  /** Over any sequence of drops and drop-then-installs the maps stay exact inverses with one key set. */
  lemma {:induction false} RunKeepsExact(m: Maps, steps: seq<Step>, signatureOf: Chunk -> string)
    requires Exact(m) && Proper(m, steps, signatureOf)
    ensures Exact(Run(m, steps, signatureOf))
  {
    if steps != [] {
      var n := |steps| - 1;
      forall i | 0 <= i < n ensures steps[..n][..i] == steps[..i] {
      }
      RunKeepsExact(m, steps[..n], signatureOf);
      var before := Run(m, steps[..n], signatureOf);
      DropKeepsExact(before, steps[n].key);
      if steps[n].Replace? {
        InstallKeepsExact(Drop(before, steps[n].key), steps[n].key, steps[n].bundle, signatureOf);
      }
    }
  }

  /** Dropping files needs no condition: the maps stay exact, and of the files with chunks just those stay that are not dropped. */
  lemma {:induction false} RemovalsKeepExact(m: Maps, keys: seq<string>, signatureOf: Chunk -> string)
    requires Exact(m)
    ensures var m' := Run(m, Removals(keys), signatureOf);
            Exact(m') && m'.byFile == m.byFile - set key | key in keys
  {
    if keys != [] {
      var n := |keys| - 1;
      RemovalsKeepExact(m, keys[..n], signatureOf);
      assert Removals(keys)[..n] == Removals(keys[..n]);
      DropKeepsExact(Run(m, Removals(keys[..n]), signatureOf), keys[n]);
      assert keys == keys[..n] + [keys[n]];
    }
  }

  // ----- what the maps say of their files -----

  /** What manifests and signatures should be, as functions of the chunks. */
  datatype Truth = Truth(lexicalOf: seq<Chunk> -> string, indexOf: seq<Chunk> -> string, signatureOf: Chunk -> string)

  ghost predicate SaysOf(m: Maps, t: Truth, key: string)
    requires key in m.byFile
  {
    && key in m.lexical && m.lexical[key] == t.lexicalOf(m.byFile[key])
    && key in m.index && m.index[key] == t.indexOf(m.byFile[key])
    && forall c <- m.byFile[key] :: Id(c) in m.signatures && m.signatures[Id(c)] == t.signatureOf(c)
  }

  /** Each file's manifest entries and signatures are those of its chunks. */
  ghost predicate True(m: Maps, t: Truth) {
    forall key <- m.byFile :: SaysOf(m, t, key)
  }

  ghost predicate TrueBundle(b: Bundle, t: Truth) {
    && (b.entry.Some? ==> b.entry.value == (t.lexicalOf(b.rows), t.indexOf(b.rows)))
    && (b.signatures.Some? ==> forall c <- b.rows :: Id(c) in b.signatures.value && b.signatures.value[Id(c)] == t.signatureOf(c))
  }

  lemma DropKeepsTrue(m: Maps, t: Truth, key: string)
    requires Exact(m) && True(m, t)
    ensures True(Drop(m, key), t)
  {
    forall k | k in Drop(m, key).byFile ensures SaysOf(Drop(m, key), t, k) {
      assert SaysOf(m, t, k);
      forall c | c in m.byFile[k] ensures Id(c) in m.fileOf && m.fileOf[Id(c)] == k {
        assert Id(c) in IdsIn(m.byFile[k]);
      }
    }
  }

  lemma {:induction false} SignaturesAreOf(chunks: seq<Chunk>, signatureOf: Chunk -> string)
    requires UniqueChunkIds(chunks)
    ensures forall c <- chunks :: Id(c) in SignaturesOf(chunks, signatureOf) && SignaturesOf(chunks, signatureOf)[Id(c)] == signatureOf(c)
  {
    if chunks != [] {
      var n := |chunks| - 1;
      SignaturesAreOf(chunks[..n], signatureOf);
      assert chunks == chunks[..n] + [chunks[n]];
      forall c | c in chunks[..n] ensures Id(c) != Id(chunks[n]) {
        var i :| 0 <= i < n && chunks[..n][i] == c;
        assert chunks[i] == c;
      }
    }
  }

  lemma InstallKeepsTrue(m: Maps, t: Truth, key: string, b: Bundle)
    requires Exact(m) && True(m, t) && Installable(m, key, b) && Consistent(b) && TrueBundle(b, t)
    ensures True(Install(m, key, b, t.signatureOf), t)
  {
    var m' := Install(m, key, b, t.signatureOf);
    SignaturesAreOf(b.rows, t.signatureOf);
    SignatureKeys(b.rows, t.signatureOf);
    forall k | k in m'.byFile ensures SaysOf(m', t, k) {
      if k in m.byFile {
        assert SaysOf(m, t, k);
        OthersKeepSignatures(m, t, k, key, b);
      }
    }
  }

  lemma OthersKeepSignatures(m: Maps, t: Truth, k: string, key: string, b: Bundle)
    requires Exact(m) && Installable(m, key, b) && Consistent(b) && k in m.byFile && SaysOf(m, t, k)
    ensures forall c <- m.byFile[k] :: var m' := Install(m, key, b, t.signatureOf);
              Id(c) in m'.signatures && m'.signatures[Id(c)] == t.signatureOf(c)
  {
    SignatureKeys(b.rows, t.signatureOf);
    forall c | c in m.byFile[k] ensures Id(c) !in IdsIn(b.rows) {
      assert Id(c) in IdsIn(m.byFile[k]);
      assert Id(c) in m.fileOf && m.fileOf[Id(c)] == k;
    }
  }

  /** Over any sequence of drops and drop-then-installs of true bundles, the maps say of each file what its chunks say. */
  lemma {:induction false} RunKeepsTrue(m: Maps, t: Truth, steps: seq<Step>)
    requires Exact(m) && True(m, t) && Proper(m, steps, t.signatureOf)
    requires forall i :: 0 <= i < |steps| && steps[i].Replace? ==> TrueBundle(steps[i].bundle, t)
    ensures True(Run(m, steps, t.signatureOf), t)
  {
    if steps != [] {
      var n := |steps| - 1;
      forall i | 0 <= i < n ensures steps[..n][..i] == steps[..i] {
      }
      RunKeepsTrue(m, t, steps[..n]);
      RunKeepsExact(m, steps[..n], t.signatureOf);
      var before := Run(m, steps[..n], t.signatureOf);
      DropKeepsTrue(before, t, steps[n].key);
      DropKeepsExact(before, steps[n].key);
      if steps[n].Replace? {
        InstallKeepsTrue(Drop(before, steps[n].key), t, steps[n].key, steps[n].bundle);
      }
    }
  }

  // ----- selecting changed chunks -----

  ghost predicate InItsFile(m: Maps, c: Chunk) {
    Id(c) in m.fileOf && m.fileOf[Id(c)] in m.byFile && c in m.byFile[m.fileOf[Id(c)]]
  }

  /** The list of all chunks is that of the files, each chunk once. */
  ghost predicate ListsFiles(chunks: seq<Chunk>, m: Maps) {
    Unique(chunks) && forall c :: c in chunks <==> InItsFile(m, c)
  }

  lemma {:induction false} SelectedMembers(chunks: seq<Chunk>, changed: set<string>)
    ensures forall c :: c in SelectChanged(chunks, changed) <==> c in chunks && Id(c) in changed
    ensures Unique(chunks) ==> Unique(SelectChanged(chunks, changed))
  {
    if chunks != [] {
      var n := |chunks| - 1;
      SelectedMembers(chunks[..n], changed);
      assert chunks == chunks[..n] + [chunks[n]];
      if Unique(chunks) {
        assert chunks[n] !in chunks[..n];
      }
    }
  }

  /** The files with a changed chunk. */
  function Affected(m: Maps, changed: set<string>): set<string> {
    set id | id in changed && id in m.fileOf && m.fileOf[id] != "" :: m.fileOf[id]
  }

  ghost predicate SelectsFrom(m: Maps, changed: set<string>, keys: set<string>, selected: seq<Chunk>) {
    Unique(selected) && forall c :: c in selected <==> Id(c) in changed && InItsFile(m, c) && m.fileOf[Id(c)] in keys
  }

  lemma UniqueIdsAreUnique(chunks: seq<Chunk>)
    requires UniqueChunkIds(chunks)
    ensures Unique(chunks)
  {
  }

  lemma OneFileMore(m: Maps, changed: set<string>, keys: set<string>, selected: seq<Chunk>, key: string)
    requires Exact(m) && SelectsFrom(m, changed, keys, selected) && key in m.byFile && key !in keys
    ensures SelectsFrom(m, changed, keys + {key}, selected + SelectChanged(m.byFile[key], changed))
  {
    var more := SelectChanged(m.byFile[key], changed);
    UniqueIdsAreUnique(m.byFile[key]);
    SelectedMembers(m.byFile[key], changed);
    forall c | c in more ensures Id(c) in m.fileOf && m.fileOf[Id(c)] == key {
      assert Id(c) in IdsIn(m.byFile[key]);
    }
    forall i, j | 0 <= i < |selected| && 0 <= j < |more| ensures selected[i] != more[j] {
      assert selected[i] in selected && more[j] in more;
    }
  }

  /** Looks only at the files that have a changed chunk; without maps, or when that finds nothing, scans all chunks. */
  method SelectChangedChunks(chunks: seq<Chunk>, maps: Option<Maps>, changed: set<string>) returns (selected: seq<Chunk>)
    requires maps.Some? ==> Exact(maps.value) && ListsFiles(chunks, maps.value)
    ensures multiset(selected) == multiset(SelectChanged(chunks, changed))
  {
    if changed == {} {
      NothingSelected(chunks);
      return [];
    }
    if maps.Some? {
      var m := maps.value;
      var rest, affected := Affected(m, changed), Affected(m, changed);
      selected := [];
      while rest != {}
        invariant rest <= affected && SelectsFrom(m, changed, affected - rest, selected)
        decreases rest
      {
        var key :| key in rest;
        AffectedIsFile(m, changed, key);
        OneFileMore(m, changed, affected - rest, selected, key);
        assert affected - (rest - {key}) == (affected - rest) + {key};
        selected, rest := selected + SelectChanged(m.byFile[key], changed), rest - {key};
      }
      SelectedIsScan(chunks, m, changed, selected);
      if selected != [] {
        return;
      }
    }
    selected := SelectChanged(chunks, changed);
  }

  lemma AffectedIsFile(m: Maps, changed: set<string>, key: string)
    requires Exact(m) && key in Affected(m, changed)
    ensures key in m.byFile
  {
    var id :| id in changed && id in m.fileOf && m.fileOf[id] == key;
  }

  lemma {:induction false} NothingSelected(chunks: seq<Chunk>)
    ensures SelectChanged(chunks, {}) == []
  {
    if chunks != [] {
      NothingSelected(chunks[..|chunks| - 1]);
    }
  }

  lemma SelectedIsScan(chunks: seq<Chunk>, m: Maps, changed: set<string>, selected: seq<Chunk>)
    requires Exact(m) && ListsFiles(chunks, m) && SelectsFrom(m, changed, Affected(m, changed), selected)
    ensures multiset(selected) == multiset(SelectChanged(chunks, changed))
  {
    SelectedMembers(chunks, changed);
    forall c | c in SelectChanged(chunks, changed) ensures c in selected {
      assert m.fileOf[Id(c)] in Affected(m, changed);
    }
    SameMembersSameMultiset(selected, SelectChanged(chunks, changed));
  }

  // ----- the dictionaries -----

  class FileMaps {
    var lexicalManifest: map<string, string>
    var indexManifest: map<string, string>
    var chunksByFile: map<string, seq<Chunk>>
    var semanticSignatures: map<string, string>
    var fileKeyByChunkId: map<string, string>

    ghost function State(): Maps
      reads this
    {
      Maps(lexicalManifest, indexManifest, chunksByFile, semanticSignatures, fileKeyByChunkId)
    }

    method DropFileState(key: string) returns (stale: seq<Chunk>)
      modifies this`lexicalManifest, this`indexManifest, this`chunksByFile, this`semanticSignatures
      ensures stale == if key in old(chunksByFile) then old(chunksByFile)[key] else []
      ensures State() == Drop(old(State()), key).(fileOf := old(fileKeyByChunkId))
    {
      stale := if key in chunksByFile then chunksByFile[key] else [];
      chunksByFile, lexicalManifest, indexManifest := chunksByFile - {key}, lexicalManifest - {key}, indexManifest - {key};
      DropSignatures(stale);
      assert key !in old(chunksByFile) ==> IdsIn(stale) == {};
    }

    method DropSignatures(stale: seq<Chunk>)
      modifies this`semanticSignatures
      ensures semanticSignatures == old(semanticSignatures) - IdsIn(stale)
    {
      for i := 0 to |stale|
        invariant semanticSignatures == old(semanticSignatures) - IdsIn(stale[..i])
      {
        OneIdMore(stale, i);
        semanticSignatures := semanticSignatures - {Id(stale[i])};
      }
      assert stale[..|stale|] == stale;
    }

    method DropChunkFileMapping(stale: seq<Chunk>)
      modifies this`fileKeyByChunkId
      ensures fileKeyByChunkId == old(fileKeyByChunkId) - IdsIn(stale)
    {
      for i := 0 to |stale|
        invariant fileKeyByChunkId == old(fileKeyByChunkId) - IdsIn(stale[..i])
      {
        OneIdMore(stale, i);
        fileKeyByChunkId := fileKeyByChunkId - {Id(stale[i])};
      }
      assert stale[..|stale|] == stale;
    }

    /** The two drops are always made together. */
    method DropFile(key: string)
      modifies this
      ensures State() == Drop(old(State()), key)
    {
      var stale := DropFileState(key);
      DropChunkFileMapping(stale);
      assert key !in old(chunksByFile) ==> IdsIn(stale) == {};
    }

    /** Files that have left the scope are dropped one after the other. */
    method DropStaleFiles(stale: seq<string>, ghost signatureOf: Chunk -> string)
      modifies this
      ensures State() == Run(old(State()), Removals(stale), signatureOf)
    {
      assert Removals(stale[..0]) == [];
      for i := 0 to |stale|
        invariant State() == Run(old(State()), Removals(stale[..i]), signatureOf)
      {
        DropFile(stale[i]);
        assert Removals(stale[..i + 1])[..i] == Removals(stale[..i]);
      }
      assert stale[..|stale|] == stale;
    }

    method InstallReusedFileChunks(key: string, b: Bundle, signatureOf: Chunk -> string)
      modifies this
      ensures State() == Install(old(State()), key, b, signatureOf)
    {
      if b.entry.Some? {
        lexicalManifest := lexicalManifest[key := b.entry.value.0];
        indexManifest := indexManifest[key := b.entry.value.1];
        chunksByFile := chunksByFile[key := b.rows];
        MapToFile(b.rows, key);
      }
      if b.signatures.Some? {
        semanticSignatures := semanticSignatures + b.signatures.value;
      } else {
        AddSignatures(b.rows, signatureOf);
      }
    }

    method MapToFile(rows: seq<Chunk>, key: string)
      modifies this`fileKeyByChunkId
      ensures fileKeyByChunkId == old(fileKeyByChunkId) + FilesOf(rows, key)
    {
      for i := 0 to |rows|
        invariant fileKeyByChunkId == old(fileKeyByChunkId) + FilesOf(rows[..i], key)
      {
        OneIdMore(rows, i);
        fileKeyByChunkId := fileKeyByChunkId[Id(rows[i]) := key];
      }
      assert rows[..|rows|] == rows;
    }

    method AddSignatures(rows: seq<Chunk>, signatureOf: Chunk -> string)
      modifies this`semanticSignatures
      ensures semanticSignatures == old(semanticSignatures) + SignaturesOf(rows, signatureOf)
    {
      for i := 0 to |rows|
        invariant semanticSignatures == old(semanticSignatures) + SignaturesOf(rows[..i], signatureOf)
      {
        assert rows[..i + 1][..i] == rows[..i];
        semanticSignatures := semanticSignatures[Id(rows[i]) := signatureOf(rows[i])];
      }
      assert rows[..|rows|] == rows;
    }
  }

  lemma OneIdMore(chunks: seq<Chunk>, i: nat)
    requires i < |chunks|
    ensures IdsIn(chunks[..i + 1]) == IdsIn(chunks[..i]) + {Id(chunks[i])}
  {
    assert chunks[..i + 1] == chunks[..i] + [chunks[i]];
  }
}
