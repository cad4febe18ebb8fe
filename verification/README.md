# Verified model of the broker's retrieval and inspection core

This project models the parts of the broker where state, files and several processes meet, and
proves what they promise.  It is written in Dafny 4.11; `dafny verify dfyconfig.toml` checks it.

**The semantic-index protocol** (`Upsert`, `Protocol`, `UpsertAnswers`, `Durability`, `GpuClient`, `SyncSystem`,
`DeltaSync`, `Adapter`).  A client asks whether an index is ready, uploads its chunks in bounded batches, in full
or as a delta over an earlier index, and asks again.  The service answers "ready" from a document
count alone.  That the count means completeness is a property of all runs: in every reachable state,
with any number of clients, failed requests, lost answers and restarts, and whatever true full files an
older version left, an index holds only documents of its target, each once and each with the vector of
its text.  What of it a restart brings back depends on the files alone, and is said exactly.

**What the service keeps** (`VectorCache`, `VectorVisibility`, `IndexStore`, `MatrixSearch`,
`ScalarProduct`, `SearchAlignment`, `SearchMemory`).  Vectors live in five layers (memory, one file per entry, shard
files, a monolithic file, legacy files), an index in one of three forms (full file, status file over the
vector cache, alias).  The model says what a restart finds in each form, that reuse never changes a
vector, which of two vectors a running service answers with, that searching the stored matrix refines
scoring every document by the scalar product, and which steps keep the rows of a matrix with their
identifiers.

**Embedding** (`Segments`, `Embedding`, `Embedder`).  Texts are cut into segments, looked up, sent
upstream in bounded batches, kept, and merged.

**Chunks** (`Utf8`, `Chunker`, `ChunkLines`, `ChunkMaps`, `LexicalIndex`, `LexicalSelection`).
Overlapping windows inside symbol regions, cut by UTF-8 size and numbered by line; the maps that
remember them by file; the tables of the lexical index, whose incremental update must end where a
rebuild would; and the choice of the ranked few.

**Smaller machines** (`GitFastPath`, `Registry`, `EvidenceTrim`, `WarmSpool`): two ways to
fingerprint a work tree, the lease registry with its readers, fitting evidence to a token budget, and
the request spool of the warm daemon with crashes between any two steps.

Where the source changes objects in place the model is a class whose methods are proved against a
specification function; the laws are lemmas about those functions.  A request handler is one atomic
step, as is a section under the registry's lock.

The digest, the sharding function, the embedding model, the square root, white space, reachability
of an address, pathlib's spelling of a path, `argpartition` and the output of `git status` are parameters.  What is assumed of them
stands in a named predicate at the place of use (`Protocol.Sane`, `Embedders.Embedder.Sound`,
`MatrixSearch.Partitioner`, `GitFastPath.Sane`, `GitFastPath.GitStatus`, `GitFastPath.Noted`).

## What the code narrows

Some promises hold only under a condition.  The code is modelled as it is and the condition is exact:

- A running service that has just written a batch may still answer with an older vector, when the last
  file it loads for the write, of whatever shard in the batch, has one (`KeptVectorVisibleInMemory`,
  `AnotherShardReloadsOlder`), and so may one that has since looked up another key
  (`AnotherLookupHidesIt`): over any run it answers with the vector last kept exactly when that is the one
  last brought into memory (`AnswerIsLastKeptIffLastBroughtIs`).  A restarted one always does.
- "Ready" is answered from memory and survives a restart exactly when the status file says ready for
  the same count (`ReadyAfterRestartIffFiled`); with the requests of two clients mixed it may not
  (`ReadyMayNotSurviveARestart`).  An index just written always comes back; a clone exactly when the
  full file it reads or else the status file it copied is that of the source's record
  (`FinalizedSurvivesRestart`, `CloneRoundTrip`, `ALaggingStatusIsCloned`).
- "Ready" counts what memory or the status file lists, while an index that is not in memory is read from a
  full file first, its own or one that aliases lead to.  A complete index can be read as complete exactly
  when no incomplete full file is in the way (`ReadyIsReadable`, `AFullFileShadowsAClone`); this version
  never writes one (`NoFullFileIsWritten`).
- A request that removes documents, does not replace the record and raises leaves the search state the
  record carries: searches go on reporting the removed documents, until a request is accepted or replaces
  the record or the service restarts (`FreshIffNotSpoilt`, `ARemovedDocumentIsStillFound`).
- A clone has no matrix of its own.  It does not remove one of an earlier life of its name, and else
  reads the one its alias leads to, so a later write or clone under another name may change it; its search
  then pairs identifiers with other documents' vectors (`AlignedIffNoQueryTells`,
  `CloneOfAlignedIsAlignedIffNoOldMatrix`, `WriteKeepsOtherAligned`, `CloneKeepsOtherAligned`,
  `AnOldMatrixSwapsVectors`, `ALaterWriteSwapsVectors`).
- An undisturbed delta returns normally exactly when the reused base supplies what the delta leaves
  out (`UndisturbedSync`); a base that is ready but incomplete makes the client fail.
- A truthful embedding reply that skips an index is filed under the wrong keys, unless the batch
  repeats a text just there (`OrderIsEnoughIffMatched`, `AGapPoisonsTheCache`).
- The ranges of a window's pieces miss its last line exactly when that line is empty
  (`RangesCoverWindowIffLastLineNotEmpty`).
- An incremental lexical update that meets no conflict ends in the table of a rebuild, on all a manifest
  covers, exactly when of the files it leaves alone the table holds what the manifest lists
  (`UpdateAgreesIffKeptMatch`).  From the manifest of the last completed update it always does
  (`UpdateAgreesWithRebuild`).  After a crash between the two writes it does exactly when no file was
  changed back meanwhile (`UpdateAfterCrashAgreesIffNothingWentBack`); a file that was keeps its wrong row
  for as long as it does not change (`ARevertedFileKeepsItsRow`).
- It is the very table of a rebuild exactly when, besides, no unchanged file has a new displayed path or
  language (`UpdateIsRebuildIffLabelsCurrent`).
- The full-text table then mirrors the table of chunks exactly when the manifest lists, of the ids that have
  rows, just those of the stale files (`UpdateMirrorsIffManifestListsIds`, `AnOldManifestLeavesRowsBehind`).
  It is that of a rebuild exactly when the rows it keeps are those of the unchanged files
  (`UpdatedFtsIsRebuiltIffKeptFtsCurrent`), and both tables are exactly when all three conditions hold
  (`UpdateIsRebuildOfBothTables`).
- The git fast path agrees with `git status` exactly when no tracked file has become a directory and no
  tracked path begins or ends in white space (`FastPathAgrees`, `ATrailingSpaceIsLost`).
- "Three health intervals" is what a reader enforces exactly for intervals of a second or more
  (`ThreeIntervalsIffAtLeastASecond`), and a publisher started after renewals takes longer leases
  (`ALaterPublisherLeasesLonger`).
- A request file named just `.json` does not survive claim and recovery (`ClaimRoundTrip`).

## Model

| member | source | states |
|---|---|---|
| VectorCaches.VectorCache.LoadVectorCacheFile | workers/gpu-service/main.py:954-995 | Loading a shard file copies every record into memory over what was there; a file with an empty vector is not read; the new state is that of the specification. |
| VectorCaches.VectorCache.GetVectorCache | workers/gpu-service/main.py:1158-1181 | The lookup through memory, entry file, shard, monolithic file and legacy file, with what each hit leaves in memory. |
| VectorCaches.VectorCache.GroupByShard | workers/gpu-service/main.py:1000-1009 | Entries are grouped by shard in first-seen order, the later of two entries with one key winning. |
| VectorCaches.VectorCache.WriteVectorCacheShard | workers/gpu-service/main.py:1010-1023 | A shard is rewritten as what its file (or the monolithic one) held, overlaid with the new records. |
| VectorCaches.VectorCache.UnlinkEntryFiles | workers/gpu-service/main.py:1024-1027 | Exactly the entry files of the batch go. |
| VectorCaches.VectorCache.WriteVectorCacheBatch | workers/gpu-service/main.py:997-1027 | A batch write is the shard writes in order followed by the unlinking. |
| VectorCaches.RestartedAdapterAnswersFromFiles | workers/gpu-service/main.py:1158-1181 | A newly started adapter's lookup is a function of the files alone. |
| VectorCaches.BatchWriteOverlaysLookup | workers/gpu-service/main.py:997-1027 | For a newly started adapter, after a batch write the lookup is the old lookup overlaid with the batch: no shard or monolithic entry is lost. |
| VectorCaches.KeptVectorVisibleInMemory | workers/gpu-service/main.py:993-1027 | For any batch and any of its keys: a running adapter sees the vector it just kept exactly when no file loaded for the write, over all shards the batch touches, had an older record last. |
| VectorCaches.WriteShardsMemory | workers/gpu-service/main.py:1010-1023 | What memory holds for any key after any shards were written: the record of the last file loaded that knows it, or what it held. |
| VectorCaches.AnotherShardReloadsOlder | workers/gpu-service/main.py:1014-1020 | Writing one shard may bring back an older vector of another, through the monolithic file. |
| VectorVisibility.ReadMemory | workers/gpu-service/main.py:1158-1181 | What memory holds for any key after a lookup of any other: what the files opened on the way bring, the monolithic one last. |
| VectorVisibility.AnswerIsLastKeptIffLastBroughtIs | workers/gpu-service/main.py:993-1181 | Over any run of lookups, batch writes and restarts: the answer is the record last kept exactly when the record last brought into memory since the last restart, if any, is that one. |
| VectorVisibility.RestartAnswersLastKept | workers/gpu-service/main.py:1158-1181 | After any run and a restart the answer is the record last kept or, for a key never kept, the one the files had. |
| VectorVisibility.AnotherLookupHidesIt | workers/gpu-service/main.py:993-994 | Looking another key up opens the monolithic file over a newer vector in memory. |
| VectorVisibility.RunStaysSharded | workers/gpu-service/main.py:1010-1023 | Over any run no shard file takes in keys of another shard, whatever the monolithic file holds. |
| VectorCaches.ReuseNeverChangesAVector | workers/gpu-service/main.py:1158-1181 | Over any run of lookups, batch writes and restarts, whatever holds of every kept record holds of every answer. |
| VectorCaches.GetLoadsVectors | workers/gpu-service/main.py:954-995 | Nothing without a vector is ever loaded. |
| IndexStore.LoadCacheDropsOnlyAliases | workers/gpu-service/main.py:650-740 | Following aliases ends on every alias graph, answers with a stored full file and drops nothing but aliases. |
| IndexStore.LoadStatusDropsOnlyAliases | workers/gpu-service/main.py:771-835 | The same for status files. |
| IndexStore.CyclicAliasesLoadNothing | workers/gpu-service/main.py:650-690 | A cycle of aliases loads nothing and terminates. |
| IndexStore.FullFileRoundTrip | workers/gpu-service/main.py:469-510 | After a restart an index stored whole comes back exactly when every document has an id and a vector. |
| IndexStore.StatusFileRoundTrip | workers/gpu-service/main.py:1073-1116 | After a restart an index stored as status and vectors comes back, documents in order, exactly when every vector is on disk. |
| IndexStore.CloneRoundTrip | workers/gpu-service/main.py:512-564 | After a restart a clone comes back exactly when the full file it reads holds the record or, without one, the list it was cloned from is that of the record. |
| IndexStore.ALaggingStatusIsCloned | workers/gpu-service/main.py:520-548 | A source whose status file lists less than it has in memory is cloned as that list, and its record does not come back. |
| IndexStore.CloneOfFullFile | workers/gpu-service/main.py:512-564 | A clone of an index stored whole reads that file. |
| IndexStore.RebuildFinds | workers/gpu-service/main.py:1081-1101 | Rebuilding from a status file gives all documents with their vectors or nothing. |
| Upserts.KnownIdKeepsItsPlace | workers/gpu-service/main.py:1405-1412 | A document with a known id takes the place of the one it replaces. |
| Upserts.NewIdGoesToTheEnd | workers/gpu-service/main.py:1405-1412 | A document with a new id goes to the end. |
| Adapter.RetrievalServiceAdapter.LoadCache | workers/gpu-service/main.py:650-740 | In place, what the specification says: aliases followed, dead ones unlinked. |
| Adapter.RetrievalServiceAdapter.LoadStatusCache | workers/gpu-service/main.py:771-835 | In place, the status file a key or its aliases lead to. |
| Adapter.RetrievalServiceAdapter.WriteCache | workers/gpu-service/main.py:469-510 | Alias removed, full file kept only if the record cannot be rebuilt, status and matrix rewritten. |
| Adapter.RetrievalServiceAdapter.GetIndex | workers/gpu-service/main.py:1073-1101 | Memory, then full file, then status with vectors; a find is remembered. |
| Adapter.RetrievalServiceAdapter.RebuildDocuments | workers/gpu-service/main.py:1081-1101 | The loop over the status file's documents, stopping at the first missing vector. |
| Adapter.RetrievalServiceAdapter.CloneCache | workers/gpu-service/main.py:512-564 | Full file of the target removed, alias and status written from the source's. |
| Adapter.RetrievalServiceAdapter.IndexStatus | workers/gpu-service/main.py:1321-1331 | Ready is a flag and an equal count, from memory or else from the status file. |
| Adapter.RetrievalServiceAdapter.BeginUpsert | workers/gpu-service/main.py:1342-1357 | Which record a request starts from and whether its base was reused. |
| Adapter.RetrievalServiceAdapter.RemoveDocuments | workers/gpu-service/main.py:1358-1363 | Removed ids leave the record, the rest stays in order. |
| Adapter.RetrievalServiceAdapter.PrepareDocuments | workers/gpu-service/main.py:1364-1387 | Every document is looked up; a cached vector counts only with the same text hash; a document without an id raises. |
| Adapter.RetrievalServiceAdapter.EmbedMissing | workers/gpu-service/main.py:1388-1404 | New vectors enter memory and then one batch on disk. |
| Adapter.RetrievalServiceAdapter.KeepNewVectors | workers/gpu-service/main.py:1394-1403 | The entries to write are those of the missing documents, in order, and memory holds them. |
| Adapter.RetrievalServiceAdapter.OverlayDocuments | workers/gpu-service/main.py:1405-1415 | New documents replace those with their id in place and others are appended. |
| Adapter.RetrievalServiceAdapter.FinalizeIndex | workers/gpu-service/main.py:1414-1426 | An unchanged reused base is cloned, anything else written. |
| Adapter.RetrievalServiceAdapter.IndexUpsert | workers/gpu-service/main.py:1333-1435 | The whole request against the specification, with the ways it raises; what its answer counts is `UpsertAnswers.AnswerCounts`. |
| Protocol.GetServes | workers/gpu-service/main.py:1158-1181 | A lookup answers only with a true record and loses nothing that could be found. |
| Protocol.KeepServes | workers/gpu-service/main.py:997-1027 | Keeping true records leaves every layer true, loses nothing and makes each new one findable. |
| Protocol.UpsertKeepsInv | workers/gpu-service/main.py:1333-1435 | Whatever base, removals, failures: an honest request keeps the invariant; an accepted one leaves exactly start minus removed plus sent; it raises only if embedding does. |
| UpsertAnswers.AnswerCounts | workers/gpu-service/main.py:1333-1435 | An honest request in a reachable state raises exactly when a vector is missing and cannot be computed; else it counts as embedded the documents whose vectors could not be found before it, as reused those whose could, and as total the ids the index then holds. |
| UpsertAnswers.SentAgainNothingIsEmbedded | workers/gpu-service/main.py:1364-1435 | The same documents sent again, under whatever index they belong to, are all reused. |
| UpsertAnswers.EveryItemHasItsOwnVector | workers/gpu-service/main.py:1364-1412 | Whatever content hashes clients claim, every document gets the vector of its own text, filed under the hash claimed. |
| Protocol.BeginKeepsInv | workers/gpu-service/main.py:1342-1363 | Replacing with a reused base and removing ids stays inside the target. |
| Protocol.CommitKeepsInv | workers/gpu-service/main.py:1388-1426 | Embedding, overlay and finalizing keep the invariant. |
| Protocol.CloneKeepsInv | workers/gpu-service/main.py:512-564 | A clone's status file is true of its target. |
| Protocol.RestartKeepsInv | workers/gpu-service/main.py:320-335 | A restart at any time keeps the invariant. |
| Protocol.StatusChangesNothing | workers/gpu-service/main.py:1321-1331 | A status request changes no record, status or vector. |
| Protocol.ReadyMeansComplete | workers/gpu-service/main.py:1321-1331 | In a reachable state "ready" for the target's size is answered if and only if the index is complete: exactly the target's ids, each with the vector of its text. |
| Protocol.StatusCountsDocuments | workers/gpu-service/main.py:1321-1331 | The count in a status answer is the number of ids of the record it is about. |
| Protocol.ReadyIsReadable | workers/gpu-service/main.py:1073-1101 | A complete index is read as a complete record exactly when no incomplete full file is read instead of it. |
| Durability.RestartBringsBackIffCurrent | workers/gpu-service/main.py:1073-1101 | In a reachable state a restart brings back the record in memory exactly when the full file it reads holds it or, without one, it is ready, not empty and the status file is its own. |
| Durability.UpsertStatuses | workers/gpu-service/main.py:1414-1426 | Which status file an accepted request leaves and what full file is read afterwards: none new before the last batch, then that of the record, or for a clone that of the base. |
| Durability.CloneHoldsBase | workers/gpu-service/main.py:1343-1426 | A request that clones leaves its base's record, documents in order. |
| Durability.FinalizedSurvivesRestart | workers/gpu-service/main.py:1333-1435 | A finalized index that is not empty comes back after a restart: always if written, and if cloned exactly when the full file or else the status file of the base was current. |
| Durability.ReadyAfterRestartIffFiled | workers/gpu-service/main.py:1321-1331 | After a restart "ready" is answered exactly for the count of a ready status file. |
| Durability.CompleteAfterRestartIffFiled | workers/gpu-service/main.py:1073-1101 | After a restart the index is complete exactly when its status file says ready for the target's size or, where a full file is read, when that is complete. |
| Durability.ReadyMayNotSurviveARestart | workers/gpu-service/main.py:1414-1426 | Three batches of two clients after which the index is ready for three documents and, after a restart, for two. |
| Durability.AFullFileShadowsAClone | workers/gpu-service/main.py:650-690 | Two clones of indexes stored whole after which an index is ready for more documents than are read. |
| Protocol.GetIndexAnswersHeld | workers/gpu-service/main.py:1073-1101 | In a reachable state loading an index answers just what memory, a full file or the status file describes, and that is true of the index. |
| Protocol.LoadedIsTrue | workers/gpu-service/main.py:650-740 | What a full file of an older version brings, through any chain of aliases, is true of the index asked for. |
| GpuClient.PackBatches | workers/rag-compression/gpu_client.py:493-507 | The packing loop: oversized documents raise, otherwise the greedy batches. |
| GpuClient.UploadIsPacked | workers/rag-compression/gpu_client.py:493-507 | Batches concatenate to the chunks, obey both limits, and no batch had room for the first chunk of the next. |
| GpuClient.SyncPlanDescribesTheStep | workers/rag-compression/inspection_pipeline.py:814-831 | Base ids minus removed plus changed are exactly the current ids. |
| GpuClient.SyncPlanGivesSignatures | workers/rag-compression/inspection_pipeline.py:814-831 | Carried out over its base the plan gives the current signatures, chunk by chunk, and sends or removes nothing for nothing; there is one exactly when another index was synced before. |
| SyncSystem.UploadIsHonest | workers/rag-compression/gpu_client.py:509-527 | Every request of an upload keeps the protocol's promises. |
| SyncSystem.ReturnIsReady | workers/rag-compression/gpu_client.py:471-478 | The one step by which a client returns normally is a status answer "ready" that it received. |
| SyncSystem.NoClientReturnsOnAPartialIndex | workers/rag-compression/gpu_client.py:456-561 | Over every interleaving of clients, failures, lost answers and restarts, a client that returns normally leaves a complete index; exactly when it can be read, now and after a restart, is said with it. |
| SyncSystem.NoFullFileIsWritten | workers/gpu-service/main.py:469-510 | Over every run no full file is written. |
| SyncSystem.WithoutFullFilesUsableIsReadable | workers/gpu-service/main.py:1073-1101 | So in a cache directory without full files a complete index can always be read, and after a restart exactly when the status file says ready. |
| DeltaSync.ReplayHolds | workers/rag-compression/gpu_client.py:509-534 | After any prefix of an upload the index holds its start minus removals plus all sent so far. |
| DeltaSync.ReplayIsCurrent | workers/rag-compression/gpu_client.py:509-534 | After an undisturbed upload the status file is that of the record, unless the upload was the clone of a base whose own is not. |
| DeltaSync.UploadAlone | workers/rag-compression/gpu_client.py:484-534 | An undisturbed upload reaches its end with all its chunks in a ready index. |
| DeltaSync.UndisturbedSync | workers/rag-compression/gpu_client.py:538-561 | An undisturbed client returns normally, with the complete index, exactly when a reused base supplies what the delta leaves out; a base not reused falls back to a full upload; a restart then brings the index back exactly unless it is a mere clone of a base that would not come back itself. |
| DeltaSync.CompleteRecordsAgree | workers/rag-compression/gpu_client.py:541-551 | A delta and a full upload that both complete leave the same documents. |
| DeltaSync.PlannedDeltaSuffices | workers/rag-compression/inspection_pipeline.py:814-831 | The plan the pipeline computes is honest, and over a complete base its delta suffices. |
| Segments.SplitTextForEmbedding | workers/gpu-service/main.py:1226-1246 | The cutting loop computes the segments. |
| Segments.Stop | workers/gpu-service/main.py:1234-1241 | A cut falls behind the last break before the limit if that is in the second half, else at the limit; it always advances. |
| Segments.SegmentsLoseOnlyWhiteSpace | workers/gpu-service/main.py:1226-1246 | At least one segment, none over the limit, together all non-blank characters in order. |
| Embedding.MergeVectors | workers/gpu-service/main.py:1211-1224 | None or unequal dimensions raise, one vector is returned as it is; several give a vector of length one which, times a positive norm, is their sum component by component, or all zeros if they cancel out. |
| Embedding.MergedIsMerge | workers/gpu-service/main.py:1211-1224 | The same of the specification. |
| Embedding.MergeIgnoresOrder | workers/gpu-service/main.py:1217-1223 | The order of the vectors does not matter. |
| Embedding.CopiesMergeToIt | workers/gpu-service/main.py:1211-1224 | Several copies of one vector of length one merge to that vector. |
| Embedding.NormalizedIsUnit | workers/gpu-service/main.py:303-311 | A normalized vector has length one, or is all zeros. |
| Embedding.NormalizedKeepsDirection | workers/gpu-service/main.py:303-311 | A positive factor, its length, takes the normalized vector back to the vector. |
| Embedding.OrderIsEnoughIffMatched | workers/gpu-service/main.py:1275-1285 | A truthful reply may be matched by order if and only if, sorted by index, each entry is about the text of its place, whenever different texts embed differently. |
| Embedding.OrderIsEnoughIffGapless | workers/gpu-service/main.py:1275-1285 | In a batch that repeats no text: if and only if the sorted indices are 0, 1, 2 and so on. |
| Embedding.OneEntryPerInputIsGapless | workers/gpu-service/main.py:1275-1285 | A truthful reply with one entry per input is gapless in any order. |
| Embedding.AGapPoisonsTheCache | workers/gpu-service/main.py:1275-1285 | A truthful reply with a gap files a vector under another text's key. |
| Embedding.AbsorbKeepsAll | workers/gpu-service/main.py:1276-1285 | Absorbing a reply keeps whatever holds of the cache and of the new pairs. |
| Embedders.OneTruthPerInputIsSound | workers/gpu-service/main.py:1268-1280 | An upstream that answers truthfully once per input, in any order, meets what the adapter relies on. |
| Embedders.Embedder.GetEmbeddingCache | workers/gpu-service/main.py:1183-1190 | A hit is right, and there is one exactly when memory or a file has the key. |
| Embedders.Embedder.Flush | workers/gpu-service/main.py:1264-1290 | One request is sent; memory is what absorbing the reply makes of it, and so are the files exactly when segments are to be persisted; only slots of the batch change and stay right. |
| Embedders.Embedder.Enqueue | workers/gpu-service/main.py:1298-1306 | A miss joins the waiting batch, which is sent first exactly when it must not grow. |
| Embedders.Embedder.FillSlots | workers/gpu-service/main.py:1292-1307 | Every position is a cache hit or in exactly one batch, batches are legal and as full as allowed, and a hit was known before or sent earlier. |
| Embedders.Embedder.MergeTexts | workers/gpu-service/main.py:1312-1319 | Each text gets the merge of its own segments; it raises exactly if one cannot be merged. |
| Embedders.Embedder.Embed | workers/gpu-service/main.py:1248-1319 | Raises or answers each text with the merge of the normalized vectors of its segments, whatever was cached; with an upstream that answers in full it raises exactly for unequal dimensions. |
| MatrixSearch.MatrixSearchRefinesPlainSearch | workers/gpu-service/main.py:1448-1486 | Whatever argpartition picks: the scores of the sorted plain search, nothing left out above anything reported, and the same hits unless the limit cuts a tie. |
| MatrixSearch.HitsOfBest | workers/gpu-service/main.py:1465-1477 | Without a tie at the limit the reported hits are determined. |
| MatrixSearch.SearchIsInOrder | workers/gpu-service/main.py:1471-1477 | Hits come by falling score and, at equal scores, by identifier. |
| ScalarProduct.DotSymmetric | workers/gpu-service/main.py:314-317 | A score is a scalar product: symmetric, |
| ScalarProduct.DotAdditive | workers/gpu-service/main.py:314-317 | additive, |
| ScalarProduct.DotHomogeneous | workers/gpu-service/main.py:314-317 | homogeneous, |
| ScalarProduct.DotSquares | workers/gpu-service/main.py:303-317 | and of a vector with itself the sum of squares. |
| ScalarProduct.UnitsScoreOneIffEqual | workers/gpu-service/main.py:314-317 | Vectors of length one score at most one, and one exactly when they are equal. |
| ScalarProduct.TheQueryItselfComesFirst | workers/gpu-service/main.py:1448-1486 | Searching with the vector of a document, all of length one: the first hit has score one and that very vector, and no hit scores above. |
| MatrixSearch.SearchRows | workers/gpu-service/main.py:350-359 | Identifiers and rows of just the documents that have both, in order, row i beside its own identifier. |
| MatrixSearch.WrittenIndexIsAligned | workers/gpu-service/main.py:585-596 | After a full write row i of the stored matrix is the vector of the status file's identifier i. |
| MatrixSearch.FileSearchRefinesPlainSearch | workers/gpu-service/main.py:1133-1156 | After a restart, searching a finalized index from its files refines the plain search over its documents. |
| MatrixSearch.OnlyFinishedIndexesAreSearched | workers/gpu-service/main.py:1139-1155 | An index that is not finalized, or lists nothing, is not searched from its files. |
| MatrixSearch.CloneIsAlignedIffNoOldMatrix | workers/gpu-service/main.py:512-564 | When it is made, a clone of a written index is aligned exactly when no different matrix lies under its own name. |
| MatrixSearch.AnOldMatrixSwapsVectors | workers/gpu-service/main.py:610-648 | A concrete state where a clone's search pairs two identifiers with each other's vectors. |
| SearchAlignment.SearchIsRightIffAligned | workers/gpu-service/main.py:1133-1156 | How the definition of `Aligned` reads: a search from files starts with each identifier's own row, or not at all. |
| SearchAlignment.AlignedIffNoQueryTells | workers/gpu-service/main.py:1133-1156 | An index reading a matrix of its dimension with no more rows than documents is aligned exactly when every query for all documents is answered as by scoring the documents listed. |
| SearchAlignment.WriteAligns | workers/gpu-service/main.py:585-596 | A full write aligns its own index. |
| SearchAlignment.WriteKeepsOtherAligned | workers/gpu-service/main.py:585-648 | A full write keeps another index aligned exactly when that one does not lead to it or lists the rows now written. |
| SearchAlignment.GetIndexKeepsAligned | workers/gpu-service/main.py:650-740 | Loading an index, which may drop aliases, keeps every index aligned. |
| SearchAlignment.CloneOfAlignedIsAlignedIffNoOldMatrix | workers/gpu-service/main.py:512-564 | A clone of an aligned index, itself a clone or not, is aligned exactly when no other matrix lies under its own name. |
| SearchAlignment.CloneKeepsOtherAligned | workers/gpu-service/main.py:512-564 | From the state before: a clone keeps another index aligned exactly when that one does not come to read the source through the new alias, or lists the rows the source reads. |
| SearchAlignment.ALaterWriteSwapsVectors | workers/gpu-service/main.py:610-648 | With no old matrix anywhere: finalizing an index again in another order makes its clone pair identifiers with each other's vectors. |
| SearchMemory.CachedRecord.PrepareSearchState | workers/gpu-service/main.py:341-376 | What a record carries is used as it is; without that, the rows of its documents are used and, if there are any, carried from then on. |
| SearchMemory.CachedRecord.InvalidateSearchState | workers/gpu-service/main.py:335-339 | Nothing is carried afterwards. |
| SearchMemory.FreshAfterRequestIffNotSpoilt | workers/gpu-service/main.py:1353-1416 | A request leaves the search state its record carries that of the documents exactly when it is not one that, without replacing the record, takes a row out of it and raises. |
| SearchMemory.RequestRepairs | workers/gpu-service/main.py:1353-1416 | An accepted or replacing request leaves it so whatever was there; a state with too many rows otherwise keeps having too many. |
| SearchMemory.FreshIffNotSpoilt | workers/gpu-service/main.py:341-376 | Over every run of requests, loads, searches and restarts: it is that of the documents exactly when since the last repair none took a row out and raised. |
| SearchMemory.RunKeepsReady | workers/gpu-service/main.py:1436-1448 | Over every run only finalized records carry search states. |
| SearchMemory.FreshSearchRefinesPlainSearch | workers/gpu-service/main.py:1448-1477 | And then a search refines the plain search over the documents. |
| SearchMemory.ARemovedDocumentIsStillFound | workers/gpu-service/main.py:1358-1393 | Otherwise a search for all rows reports a document the index no longer holds. |
| Utf8.SplitUtf8Chunks | workers/rag-compression/inspection_index.py:3304-3319 | Pieces concatenate to the text, fit the limit, decode strictly, and all but the last come within three bytes of it; it raises exactly when a too long text has a character longer than the limit. |
| Utf8.BackOff | workers/rag-compression/inspection_index.py:3311-3314 | Backing off stops at a byte that starts a character, or at the start. |
| Utf8.StartsChar | workers/rag-compression/inspection_index.py:3313 | A byte starts a character exactly when it is not a continuation byte. |
| Utf8.DecodeEncode | workers/rag-compression/inspection_index.py:3317 | Decoding undoes encoding. |
| Utf8.DecodeIsStrict | workers/rag-compression/inspection_index.py:3317 | What decoding accepts is the one encoding of its result. |
| Utf8.EncodedByTable | workers/rag-compression/inspection_index.py:3304-3305 | Characters are encoded as in the table of section 3 of RFC 3629. |
| Chunker.RegionStarts | workers/rag-compression/inspection_index.py:3287-3290 | Regions start at line 1 and at each marked line, in order, with the symbol last given. |
| Chunker.RegionWindows | workers/rag-compression/inspection_index.py:3291-3301 | For any overlap the loop ends; the windows are those of just the cuts that are not blank: cuts start so many lines apart that consecutive ones share `overlap` lines, and all but the last have maxLines lines; together they cover every non-blank line. |
| Chunker.BlankIffAllSpace | workers/rag-compression/inspection_index.py:3297-3299 | A stretch counts as blank exactly when it is all white space. |
| Chunker.ConsecutiveCuts | workers/rag-compression/inspection_index.py:3301 | The next cut starts behind this one's start and, if that is further, so far before its end that they share `overlap` lines; an overlap under the window size is shared in full. |
| Chunker.ChunkRegions | workers/rag-compression/inspection_index.py:3286-3301 | The windows of a file are those of all cuts of all its regions that are not blank: each non-blank line covered, none too long, none crossing a marker, each with its region's symbol. |
| Chunker.NothingBetweenWindows | workers/rag-compression/inspection_index.py:3286-3301 | Between consecutive windows there are only blank lines. |
| ChunkLines.NumberSegments | workers/rag-compression/inspection_index.py:6034-6039 | Counting newlines computes, for each piece, the line of its first and of its last character. |
| ChunkLines.RangesAreTheLinesTouched | workers/rag-compression/inspection_index.py:6034-6039 | A line is in a piece's range exactly when it has a character in the piece. |
| ChunkLines.RangesStayInside | workers/rag-compression/inspection_index.py:6034-6039 | Ranges stay inside the window. |
| ChunkLines.LinesAreInRange | workers/rag-compression/inspection_index.py:6034-6039 | Every line of a window but an empty last one is in some piece's range. |
| ChunkLines.RangesCoverWindowIffLastLineNotEmpty | workers/rag-compression/inspection_index.py:6034-6039 | The ranges cover the window exactly when its last line is not empty. |
| ChunkLines.BuildChunks | workers/rag-compression/inspection_index.py:6033-6070 | Every line with anything on it is in the range of a chunk; each chunk is small enough, short enough and inside one region. |
| ChunkMaps.FileMaps.DropFileState | workers/rag-compression/inspection_index.py:5137-5143 | What is popped for a file, and the chunks handed back. |
| ChunkMaps.FileMaps.DropChunkFileMapping | workers/rag-compression/inspection_index.py:5146-5148 | Exactly the ids of the given chunks go. |
| ChunkMaps.FileMaps.DropStaleFiles | workers/rag-compression/inspection_index.py:6125-6127 | The loop over files that have left the scope is the run of their drops. |
| ChunkMaps.FileMaps.InstallReusedFileChunks | workers/rag-compression/inspection_index.py:5151-5175 | The five dictionaries after an install, with and without manifest entries and cached signatures. |
| ChunkMaps.DropKeepsExact | workers/rag-compression/inspection_index.py:5137-5148 | Dropping a file keeps the maps exact. |
| ChunkMaps.RemovalsKeepExact | workers/rag-compression/inspection_index.py:6125-6127 | After it the maps are exact and hold just the files not dropped. |
| ChunkMaps.InstallKeepsExact | workers/rag-compression/inspection_index.py:5151-5175 | Installing a consistent bundle of new ids after a drop keeps the maps exact. |
| ChunkMaps.RunKeepsExact | workers/rag-compression/inspection_index.py:5137-5175 | Over any sequence of drops and drop-then-installs the id map is the inverse of the file map, signatures cover the live ids and the manifests share one key set. |
| ChunkMaps.RunKeepsTrue | workers/rag-compression/inspection_index.py:5137-5175 | Over the same sequences each file's manifest entries and each chunk's signature stay those of its chunks. |
| ChunkMaps.SelectChangedChunks | workers/rag-compression/gpu_client.py:435-454 | The per-file selection picks the same chunks as the scan of all. |
| LexicalIndex.LexicalDatabase.InsertLexicalChunks | workers/rag-compression/inspection_index.py:8252-8285 | An insert succeeds exactly when no id is repeated or taken; then both tables gain exactly the chunks, each with its own id, path, symbol and content in a full-text row of its own. |
| LexicalIndex.LexicalDatabase.DeleteLexicalFtsChunkIds | workers/rag-compression/inspection_index.py:8288-8295 | Deleting in statements of any size deletes exactly the rows with the ids. |
| LexicalIndex.LexicalDatabase.UpdateFiles | workers/rag-compression/inspection_index.py:8644-8669 | All stale rows go first, then the changed files come in; it succeeds exactly when no insert meets a row that stays. |
| LexicalIndex.LexicalDatabase.Rebuild | workers/rag-compression/inspection_index.py:8298-8312 | A rebuild succeeds exactly with distinct ids and holds just the chunks; each is found once, with its own path, symbol and content, and nothing else is. |
| LexicalIndex.LexicalDatabase.EnsureLexicalIndex | workers/rag-compression/inspection_index.py:8506-8704 | From any manifest: the chunk table ends up right exactly after a rebuild or when the files left alone were held as listed, the full-text table mirrors it exactly after a rebuild or when just the stale ids were listed, and tables that match their manifest end up right and matching the new one. With both right each chunk is found once in the full-text table, with its symbol and content, and nothing else is; under its own path exactly after a rebuild or with current paths. |
| LexicalIndex.NoInsertConflicts | workers/rag-compression/inspection_index.py:8647-8666 | With stale rows gone no insert meets its primary key. |
| LexicalIndex.UpdateAgreesIffKeptMatch | workers/rag-compression/inspection_index.py:8506-8704 | From any manifest: the incremental table has exactly the desired ids and equals the desired chunks on all a signature covers and on content if and only if, of the files left alone, the table held what the manifest lists. |
| LexicalIndex.UpdateAgreesWithRebuild | workers/rag-compression/inspection_index.py:8506-8704 | So from a matching manifest it always does. |
| LexicalIndex.UpdateAfterCrashAgreesIffNothingWentBack | workers/rag-compression/inspection_index.py:8644-8697 | With the manifest of the chunks before a crash and the table of those written: if and only if each file that is again as the manifest lists it is also as the table holds it. |
| LexicalIndex.ARevertedFileKeepsItsRow | workers/rag-compression/inspection_index.py:8514-8530 | The smallest case: the file is changed back, nothing is stale, and the wrong row stays. |
| LexicalIndex.UpdateIsRebuildIffLabelsCurrent | workers/rag-compression/inspection_index.py:3878-3885 | From any manifest: it is the table of a rebuild if and only if, besides, unchanged files kept displayed path and language. |
| LexicalIndex.AgreeingTableMatches | workers/rag-compression/inspection_index.py:8686-8697 | The manifest written afterwards matches the table, so the next update may start from it. |
| LexicalIndex.MirrorsFindText | workers/rag-compression/inspection_index.py:8276-8285 | A right table with its mirror: field by field, each chunk is found once and nothing else, under the chunks' own paths exactly when the rows have these. |
| LexicalIndex.UpdatedFtsIsRebuiltIffPathsCurrent | workers/rag-compression/inspection_index.py:3878-3885 | With those conditions met, the full-text table holds the rows of a rebuild if and only if unchanged files kept their displayed path. |
| LexicalIndex.UpdatedFtsIsRebuiltIffKeptFtsCurrent | workers/rag-compression/inspection_index.py:8647-8666 | From any manifest: the full-text table holds the rows of a rebuild if and only if the rows not listed for a stale file are those of the unchanged chunks. |
| LexicalIndex.UpdateIsRebuildOfBothTables | workers/rag-compression/inspection_index.py:8644-8669 | From any manifest: both tables are those of a rebuild if and only if the files left alone were held as listed, just the stale ids were listed, and no label is out of date. |
| LexicalIndex.UpdateMirrorsIffManifestListsIds | workers/rag-compression/inspection_index.py:8647-8666 | From any manifest, after an update that inserts without conflict, the full-text table holds each row's text exactly once if and only if the manifest lists, of the ids with rows, just those of the stale files. |
| LexicalIndex.UpdateMirrors | workers/rag-compression/inspection_index.py:8647-8666 | So from a matching manifest it always does. |
| LexicalIndex.AnOldManifestLeavesRowsBehind | workers/rag-compression/inspection_index.py:8647-8656 | A file in the table that the manifest does not know keeps full-text rows it should lose. |
| LexicalIndex.AnOldManifestDoublesRows | workers/rag-compression/inspection_index.py:8647-8656 | The smallest case: a full-text row stands twice. |
| LexicalSelection.SelectRanked | workers/rag-compression/inspection_index.py:9622-9645 | The two passes return the first min(limit, n) of the rank order. |
| LexicalSelection.RankOrderLeadsWithEachPath | workers/rag-compression/inspection_index.py:9622-9640 | The rank order is a permutation: first the best hit of each path in score order, then the rest in score order. |
| LexicalSelection.EveryPathAppearsWithinLimit | workers/rag-compression/inspection_index.py:9622-9640 | With room for all paths every path is represented. |
| LexicalSelection.ShownAreDistinct | workers/rag-compression/inspection_index.py:9622-9645 | No chunk is returned twice. |
| GitFastPath.EntryLoop | workers/rag-compression/inspection_index.py:7238-7316 | The loop over status entries: of entries that are not skipped, the index column, the work tree column and the untracked files, member by member, sorted. |
| GitFastPath.NormalizeFiles | workers/rag-compression/inspection_index.py:1924-1937 | Reading notes back strips every path and signature and gives up on an empty one. |
| GitFastPath.CompareWithBaseline | workers/rag-compression/inspection_index.py:2252-2325 | With the notes as read back: changed noted files in path order and every file not noted, or nothing for unusable notes. |
| GitFastPath.SurvivingNotesReadRight | workers/rag-compression/inspection_index.py:2252-2257 | Notes whose paths neither begin nor end in white space are read back as they were taken. |
| GitFastPath.LostPathIsNotRead | workers/rag-compression/inspection_index.py:1924-1937 | Of the paths that are changed by stripping the longest is not read back under any name. |
| GitFastPath.ATrailingSpaceIsLost | workers/rag-compression/inspection_index.py:2252-2253 | An unchanged tree with a tracked name ending in a space is reported with a deleted and an untracked file. |
| GitFastPath.DiffersIffChanged | workers/rag-compression/inspection_index.py:2273-2292 | Skipping files by state signature hides no change and invents none. |
| GitFastPath.FastPathAgrees | workers/rag-compression/inspection_index.py:2238-2325 | For any edits, deletions and new files and any order of status output, whenever the comparison answers: all three components agree if and only if no relevant tracked path is changed by stripping and no tracked file became a directory; staged always agrees, untracked whenever no path is changed. |
| Registry.RegistryPublisher.FindRecord | workers/gpu-service/main.py:156-167 | The publisher's own record if the token fits, and the lease duration read at first access. |
| Registry.RegistryPublisher.PublishService | workers/gpu-service/main.py:180-199 | A starting, unexpired reservation becomes ready; anything else raises and changes nothing. |
| Registry.RegistryPublisher.RenewLease | workers/gpu-service/main.py:201-210 | A ready record gets a new heartbeat and a bounded lease. |
| Registry.RegistryPublisher.MarkServiceUnhealthy | workers/gpu-service/main.py:212-224 | The record becomes unhealthy and its lease ends. |
| Registry.StepTouchesOneRecord | workers/gpu-service/main.py:139-167 | A step touches at most its own record; a failed one touches none. |
| Registry.OnlyTheHolderActs | workers/gpu-service/main.py:156-167 | A record changes only by a publisher with its id and token. |
| Registry.StrangersChangeNothing | workers/gpu-service/main.py:156-159 | A publisher without a fitting reservation raises and changes nothing. |
| Registry.PublishingMeans | workers/gpu-service/main.py:180-199 | Publishing succeeds exactly for a starting reservation before its startup deadline; every field of the record then. |
| Registry.RenewingMeans | workers/gpu-service/main.py:201-210 | Renewing succeeds exactly for a ready record and changes only heartbeat and lease. |
| Registry.MarkingMeans | workers/gpu-service/main.py:212-224 | Marking always succeeds, keeps the reason up to a thousand characters and ends the lease now. |
| Registry.RunKeepsGood | workers/gpu-service/main.py:130-224 | Over every run of publishers, restarts, reservations and clock, each ready record owes its lease to its last heartbeat. |
| Registry.LeasesAreBounded | workers/gpu-service/main.py:169-210 | A ready lease is within the absolute bound and within heartbeat plus lease duration. |
| Registry.UnhealthyIsNeverLeft | workers/gpu-service/main.py:180-224 | No run takes a record back from unhealthy. |
| Registry.OthersLeaveARecordAlone | workers/gpu-service/main.py:139-167 | Steps of other services leave a record as it is. |
| Registry.ReaderRefusesLateRecords | workers/rag-compression/gpu_client.py:188-213 | No reader accepts a record past its lease, its absolute bound or three intervals, nor one with an error, without a token or at an address it cannot reach. |
| Registry.ThreeIntervalsIffAtLeastASecond | workers/rag-compression/gpu_client.py:209-212 | Three intervals bound the age of every accepted heartbeat if and only if the interval is a second or more. |
| Registry.AcceptedWhileFresh | workers/rag-compression/gpu_client.py:127-213 | After publishing or renewing, a reader accepts exactly until lease, absolute bound or heartbeat age runs out. |
| Registry.RefusedOnceUnhealthy | workers/rag-compression/gpu_client.py:188-192 | A record marked unhealthy is refused. |
| Registry.ALaterPublisherLeasesLonger | workers/gpu-service/main.py:161-165 | A publisher started after a renewal reads a duration longer by the record's age. |
| EvidenceTrim.TrimEvidence | workers/rag-compression/inspection_hotpath.py:1966-1991 | For any pack size it ends with nothing or a pack that fits, a front of the evidence with only excerpts shortened, nothing dropped while an excerpt can be shortened, and says whether anything changed; it got there by rounds, each because the pack did not fit, each cutting the longest excerpt by what the excess calls for or dropping the last item. |
| EvidenceTrim.TrimOnce | workers/rag-compression/inspection_hotpath.py:1977-1990 | One such round. |
| EvidenceTrim.LongestReducible | workers/rag-compression/inspection_hotpath.py:1977-1983 | The longest excerpt over the minimum, the last of equals. |
| EvidenceTrim.ShortenedAgain | workers/rag-compression/inspection_hotpath.py:1983-1988 | A second shortening is again a stripped prefix of the original with three dots. |
| EvidenceTrim.FitsIffThreeCharsPerToken | workers/rag-compression/inspection_hotpath.py:129-130 | A text fits a token target exactly at three characters a token. |
| WarmSpool.ClaimRoundTrip | workers/rag-compression/inspect_repo_worker.py:131-134 | A claimed request recovers its own name if and only if it has a name before the extension. |
| WarmSpool.SpoolDirectory.RecoverWarmRequests | workers/rag-compression/inspect_repo_worker.py:131-140 | Recovery leaves no working file, every pending or claimed request pending, and makes none up. |
| WarmSpool.IterWarmRequestPaths | workers/rag-compression/inspect_repo_worker.py:207-224 | Each path once, acceptable woken names first, then the listing in order. |
| WarmSpool.WokenMembers | workers/rag-compression/inspect_repo_worker.py:207-224 | A woken name counts exactly when, stripped, it is a request name without a path. |
| WarmSpool.SpoolDirectory.ProcessClaimedWarmRequest | workers/rag-compression/inspect_repo_worker.py:227-237 | A request that is there is claimed and its working file removed. |
| WarmSpool.RunLosesNone | workers/rag-compression/inspect_repo_worker.py:99-140 | Over every run of submissions, steps and crashes each submitted request is pending, claimed or has ended. |
| WarmSpool.EndedMeansProcessed | workers/rag-compression/inspect_repo_worker.py:227-237 | A request counts as ended exactly when its processing ended since it was last submitted. |
| WarmSpool.ABareNameIsLost | workers/rag-compression/inspect_repo_worker.py:131-134 | Why a request named ".json" is lost by a crash. |

## Left out

- A handler runs as one atomic step: interleavings inside one request handler, and two service processes sharing a cache directory, are not modelled.
- Protocol.UpsertKeepsInv: assumes clients that agree on what an index holds and send content-addressed chunks; malformed payloads beyond a missing id or model are not modelled.
- Adapter.RetrievalServiceAdapter.IndexUpsert: embedding is a function that answers or raises as a whole; its inside is `Embedders.Embedder.Embed`.
- IndexStore.CloneRoundTrip: states the case of a record whose vectors are on disk and served; what happens with a missing vector is `StatusFileRoundTrip`.
- GpuClient.SyncPlanDescribesTheStep: id lists are sets; their sorted order is not kept.
- SyncSystem.NoClientReturnsOnAPartialIndex: chunk content is taken as present; loading missing content before an upload is not modelled.
- Full index files: those in runs of the protocol hold true records whose vectors are in the vector cache; one whose documents have no fingerprint, or whose vectors were never cached, appears only in `IndexStore`.
- FAISS: the code paths taken when it is installed are not part of this model; the numpy and the plain search are.
- MatrixSearch.SearchRows: vectors of unequal length make numpy raise when the matrix is built; here that shows only when the query is multiplied.
- Rounding: vectors are sequences of reals, so float32 storage and accumulation errors are not modelled.
- Utf8.SplitUtf8Chunks: stated for a limit of at least one byte, since the loop does not end for zero; text is a sequence of Unicode scalar values; lone surrogates, which Python replaces when encoding, are not representable.
- Chunker.ChunkRegions: stated for windows of at least one line; symbol markers and lines are inputs; finding them in a source text is not modelled.
- ChunkLines.BuildChunks: chunk ids, digests and token estimates of the pieces are not modelled; distinct ids are assumed where needed.
- ChunkMaps.RunKeepsExact: speaks of drop and install steps; the branch of the builder that skips a file emptied while dirty drops nothing.
- LexicalIndex.LexicalDatabase.EnsureLexicalIndex: the early return on an equal fingerprint and count, restoring a shared index, a table file that is missing, symbolic links and the row order of the tables are not modelled; file digests are taken as injective.
- SearchMemory.FreshIffNotSpoilt: speaks of records in memory; the search state cached for an index that is searched from its files is what `SearchAlignment` says at the time it is read.
- GitFastPath.FastPathAgrees: assumes an unchanged index, no symbolic links, no ignored files and no mode-only changes; skip rules that hide a directory but not the files in it are not modelled; signatures read through the cache of earlier signatures are taken as right.
- GitFastPath.CompareWithBaseline: giving up on a changed index file, a missing scope or too many files leaves the other computation and is not modelled.
- GitFastPath.EntryLoop: dirty paths, the signature cache it writes and renames are not modelled.
- The staged fast paths and the scope cache of the git fingerprint: their agreement does not hold or was not claimed.
- Registry.RegistryPublisher.PublishService: the endpoint's authentication is its bearer token; time stamps are whole microseconds and always parse.
- WarmSpool.RunLosesNone: requests are names, not contents, and a recovery rename always succeeds; a request processed before a crash may be processed again.
- EvidenceTrim.TrimEvidence: everything of an item but its excerpt is one opaque text.
- LexicalSelection.SelectRanked: stated for a limit of at least one (for zero the source still returns one chunk); it takes scores as given, so the scoring formulas, query aliases and path heuristics are not modelled.
- HTTP, sockets, subprocesses, file encodings, atomic renames of temporary files, permissions and timing diagnostics.
