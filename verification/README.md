# A verified model of the MDDB document server

MDDB keeps Markdown documents in bbolt, a key-value store with ordered keys. Every write touches
four buckets at once: `docs` (the documents), `bykey` (from collection, key and language to the
document id), `idxmeta` (one key for every metadata pair of every document) and `rev` (one version
per document and second). This project models the write paths, the reads that rely on the indexes,
and the self-contained algorithms around them, and proves what they keep and what they compute.

Check it with `dafny verify dfyconfig.toml`.

## What is modelled

- Keys: `ByteStrings`, `Keys`, `KeyBuilding` - the byte order, splitting and joining, ids, the keys of
  the four buckets and what can be read back from them, 20-digit timestamps, and the builders over
  one 512-byte buffer.
- The store: `Store` gives each transaction as a function from buckets to buckets. `Server` has the
  handlers as a class that edits its buckets step by step and notes every edit in a log; each method
  is proved against the function. `Binlog` and `Replication` replay the log.
- What transactions keep: `Indexes`, `Revisions`, `BatchHistory`, and `Runs` for whole runs. `Batch`
  and `WorkerPool` relate batch adds, under any interleaving of workers, to single adds.
- What documents say: `Documents` - every field of every stored document after any run, told by the
  requests, and until when a document is found.
- Reading: `Search`, `Facets`, `Calendar`, `Histograms`.
- Algorithms: `UnionFinding` and `Duplicates` (similar groups), `Chunker`, `Curation` (pins and hides),
  `Rotation` (re-sealing under a new key), `Fusion` (merging result lists), `BulkIngest` (job
  accounting), `Converters` (rewriting LaTeX and HTML).
- `Limits`: concrete inputs where the program does less than one might expect.

Bytes are characters of a `string`. A stored value stands for its encoding. Clock readings, random
nonces, schema validation, worker schedules, cancellation and similarity scores are parameters.

## Where the code differs from what is said about it

- `genID` (services/mddbd/util.go:20-45) lower-cases its parts and joins them with pipes, so ids are
  not injective in the names and contain pipes themselves. Documents and key index therefore stay
  one-to-one exactly as long as every request spells key and language, joined by a pipe, as they are
  stored (`Runs.KeysAgreeIff`); `Limits` has the inputs that break it.
- Nothing forbids pipes in collections, keys, languages or metadata. Theorems over runs ask for
  pipe-free collections; those about the metadata index also for pipe-free names or pipe-free
  metadata, because otherwise two documents can own one index key (`Limits.SharedIndexKey`).
- With a pipe in a language or key, one document's id can begin another's. Deleting, trimming or
  truncating the first then takes the other's revisions; `Revisions` has the exact conditions and
  `Limits` the runs.
- A batch indexes every version of a repeated document against the version stored before the batch,
  so it can leave stale index keys; `Batch.BatchAgreesIff` says exactly when it does not.
- A facet cuts index keys at the first pipe after the field, so a field with a pipe can count keys of
  another (`Facets.FacetIsScanIff`). A filtered search compares whole keys, so a pair of filter key and
  value can hit another pair that a pipe splits elsewhere (`Search.SearchDocuments`).
- A histogram stops after 1000 buckets and drops the documents beyond without notice
  (services/mddbd/aggregation.go:282-284, `Histograms.ReachesAllIff`).
- The key builders truncate at 512 bytes without an error and index out of range when a separator
  falls there (services/mddbd/keybuilder.go:9-95).
- `FormatTimestamp` writes zeros for negative values, unlike `%020d`.
- Truncation to zero revisions deletes every revision; `trimRevisions` with zero does nothing.
- A single add refuses an empty collection name; a batch add leaves that to its callers. It also ignores
  time to live, and in extreme mode writes no log, so followers miss it
  (services/mddbd/batch_final.go:202-204).
- A cancelled batch can leave empty slots (services/mddbd/batch.go:87-95, `WorkerPool.GapReached`),
  which its commit would dereference.
- `DBUpdate` holds no lock when a handler flushes its log (services/mddbd/server_restore.go:28-32), so two
  handlers can log in another order than they committed; `Binlog.FlushOrderIff` says when a
  follower survives that.
- The formula in the comment at services/mddbd/hybrid_search.go:442 has the weights the other way
  round than line 495; the model follows line 495. Weight 0 cannot be asked for: the handler
  takes it for the default 0.5 (services/mddbd/hybrid_search.go:108-110), although line 26 offers it.
- `texReplaceCmd` cuts the name of a longer command that begins with the command it looks for.
- A pinned key that is hidden as well stays: hides apply to organic results only. An organic result
  whose key is pinned goes even when the pin cannot be loaded.

## Model

| member | source | states |
|---|---|---|
| ByteStrings.CompareBytes | services/mddbd/bytes_utils.go:162-185 | -1, 0 or 1 exactly when the first string is before, equal to or after the second in the byte order (a strict total order, proved beside it) |
| ByteStrings.LessTransitive | services/mddbd/bytes_utils.go:162-185 | the byte order is transitive (with LessTotal and LessAsymmetric: a strict total order) |
| ByteStrings.BytesSplit | services/mddbd/bytes_utils.go:9-37 | the in-place split returns the parts between separators, and nothing for the empty input |
| ByteStrings.JoinSplit | services/mddbd/bytes_utils.go:9-37 | joining the parts with the separator gives back the input, for every input |
| ByteStrings.BytesSplitJoin | services/mddbd/bytes_utils.go:9-37 | splitting undoes joining separator-free parts exactly when the parts are not one empty part |
| ByteStrings.ExtractPart | services/mddbd/bytes_utils.go:66-90 | part i of the split on pipes for every index, or nothing when there is no such part |
| ByteStrings.StampDecodes | services/mddbd/bytes_utils.go:94-127 | the 20 digits of a non-negative clock value denote that value |
| ByteStrings.StampOrder | services/mddbd/bytes_utils.go:94-127 | byte order of two 20-digit stamps is numeric order |
| KeyBuilding.FormatTimestamp | services/mddbd/bytes_utils.go:94-127 | whatever slice it is given, the routine returns the 20 digits (zeros for a negative value), writing in place when there is room |
| KeyBuilding.StampedIsStamp | services/mddbd/bytes_utils.go:94-127 | on clock values the hand-written digits are the padded decimal form used by "%020d" |
| KeyBuilding.KeyBuilder.BuildDocKey | services/mddbd/keybuilder.go:9-17 | the buffer holds the document key as far as 512 bytes reach; None exactly when a separator falls outside (the Go program panics) |
| KeyBuilding.KeyBuilder.BuildByKey | services/mddbd/keybuilder.go:20-31 | the same for the key-index key |
| KeyBuilding.KeyBuilder.BuildRevPrefix | services/mddbd/keybuilder.go:34-44 | the same for the revision prefix |
| KeyBuilding.KeyBuilder.BuildRevKey | services/mddbd/keybuilder.go:47-62 | the same for the revision key |
| KeyBuilding.KeyBuilder.BuildMetaKeyPrefix | services/mddbd/keybuilder.go:65-78 | the same for the metadata prefix |
| KeyBuilding.KeyBuilder.BuildMetaKey | services/mddbd/keybuilder.go:81-95 | the same for the metadata key |
| KeyBuilding.SameDocKeyIff | services/mddbd/keybuilder.go:9-17 | two document keys as built in the buffers are equal exactly when the pipe-free collections are and the ids agree as far as they fit |
| KeyBuilding.SameByKeyIff | services/mddbd/keybuilder.go:20-31 | two built key-index keys are equal exactly when the collections are, and key and language, joined, agree as far as they fit |
| KeyBuilding.SameRevKeyIff | services/mddbd/keybuilder.go:47-62 | two built revision keys are equal exactly when collection, id and time are |
| KeyBuilding.SameMetaKeyIff | services/mddbd/keybuilder.go:81-95 | two built metadata keys of pipe-free collections and pairs are equal exactly when those are and the ids agree as far as they fit |
| Keys.GenIDInjective | services/mddbd/util.go:20-45 | ids of pipe-free names are equal exactly when the lower-cased names are |
| Keys.SameIDIff | services/mddbd/util.go:20-45 | within a collection ids are equal exactly when key and language, joined by a pipe and lower-cased, are, whatever pipes they have |
| Keys.CollectionsMeet | services/mddbd/internal/storage/keys.go:4 | a scan by collection prefix can meet a document key of another collection if and only if one name with its pipe begins the other |
| Keys.SameEntryIff | services/mddbd/internal/storage/keys.go:7-9 | key-index keys of pipe-free collections are equal exactly when the collections and the joined names are |
| Keys.ByKeyInjective | services/mddbd/internal/storage/keys.go:7-9 | a key-index key determines collection, key and language when the first two are pipe-free |
| Keys.PairsMeet | services/mddbd/internal/storage/keys.go:15-17 | a metadata prefix can match a key of another pair if and only if one of the two prefixes begins the other |
| Keys.DocumentsMeet | services/mddbd/internal/storage/keys.go:15-17 | two documents of a collection can own a common metadata key if and only if one id ends with a pipe and the other |
| Keys.MetaKeyOwner | services/mddbd/internal/storage/keys.go:15-17 | with pipe-free names in the ids a metadata key belongs to one document even when metadata have pipes |
| Keys.RevisionsMeet | services/mddbd/internal/storage/keys.go:12 | a revision lies under the prefix of a document if and only if collection and id, with their pipes, begin its own |
| Keys.RevKeyInjective | services/mddbd/keybuilder.go:47-62 | with pipe-free collections a revision key determines document and time, whatever pipes the id has |
| Keys.RevKeyOrder | services/mddbd/keybuilder.go:47-62 | revision keys of one document compare as their timestamps |
| Keys.CollOfDocKey | services/mddbd/encryption_rotate.go:160-172 | the collection is read back from a document key if and only if it has no pipe |
| Indexes.WriteKeepsIndexIff | services/mddbd/document_ops.go:96-115 | one write keeps the metadata index exact if and only if no other document owns a key it drops |
| Indexes.WriteKeepsKeysIff | services/mddbd/document_ops.go:84-94 | one write keeps documents and key index one-to-one if and only if it spells key and language, joined, as the stored document does |
| Indexes.UpdateKeepsIndexIff | services/mddbd/http_handlers_meta.go:147-176 | the same condition for a partial update |
| Indexes.UpdateKeepsKeys | services/mddbd/http_handlers_meta.go:95-150 | a partial update always keeps documents and key index one-to-one |
| Indexes.RemoveIff | services/mddbd/document_ops.go:264-313 | removing documents keeps the metadata index exact if and only if no survivor shares a key with them |
| Indexes.DeleteKeepsKeysIff | services/mddbd/document_ops.go:264-313 | a delete keeps the key index in agreement if and only if it spells the joined names as stored |
| Indexes.BatchDeleteKeepsKeysIff | services/mddbd/batchdelete.go:136-198 | a batch delete does if and only if some request spells each document it hits as stored |
| Indexes.DeleteCollectionKeepsKeys | services/mddbd/http_handlers_delete.go:129-184 | deleting a collection always does |
| Store.NamedGo | services/mddbd/batchdelete.go:44-208 | a batch delete takes exactly the documents that a request with key and language names |
| Store.RemoveOneMore | services/mddbd/batchdelete.go:136-198 | deleting documents one at a time, each by the metadata looked up before the transaction, removes what one removal of them all does |
| Revisions.KeepNewestKeeps | services/mddbd/revision_retention.go:21-52 | trimming keeps exactly the newest N revisions of the document and leaves all other keys alone |
| Revisions.KeepNewestByTime | services/mddbd/http_handlers.go:418-436 | of two stored revisions the later survives whenever the earlier does |
| Revisions.CapHolds | services/mddbd/document_ops.go:117-133 | a positive MaxRevisions bounds the history after every recorded write |
| Revisions.KeptIff | services/mddbd/revision_retention.go:21-52 | a key survives trimming if and only if it is not under the prefix or fewer than N keys there sort after it |
| Revisions.ReaderSeesNewestIff | services/mddbd/document_ops.go:117-133 | in a sound store the last key under a document prefix carries the document if and only if no other document has a revision there that sorts after it |
| Revisions.WriteKeepsHistoryIff | services/mddbd/document_ops.go:117-133 | one write keeps newest-revision-is-document if and only if its clock is not behind, it saves a revision (or changes nothing), and its trim spares every newest revision |
| Revisions.LoneWriteSpares | services/mddbd/revision_retention.go:21-52 | the trim of a write spares them whenever the id begins no other stored id of the collection |
| Revisions.UpdateKeepsHistoryIff | services/mddbd/http_handlers_meta.go:177-190 | an update keeps it if and only if its clock is not behind the stored version and its trim spares every newest revision |
| BatchHistory.UntrimmedBatchIff | services/mddbd/batch.go:252-276 | where there is no cap, or no id in play begins another, a batch keeps it if and only if for every document it writes the last version is saved and not stamped before the stored one, or nothing is saved and the last version is what was stored |
| BatchHistory.BatchKeepsHistoryIff | services/mddbd/batch.go:252-276 | any batch keeps it if and only if every document of the collection ends the batch as its own newest revision, traced request by request |
| BatchHistory.FinalVersion | services/mddbd/batch.go:189-298 | after a batch a document is its last accepted version as prepared before the batch, or as it was stored |
| Revisions.TruncateKeepsHistoryIff | services/mddbd/http_handlers.go:405-444 | truncation keeps it if and only if no single cut takes a newest revision of the collection |
| Revisions.TruncateIs | services/mddbd/http_handlers.go:405-444 | truncation takes exactly the revisions that a document of the collection has enough later ones of, and no document of it keeps more than asked for |
| Revisions.LoneCutsSpareIff | services/mddbd/http_handlers.go:405-444 | where no id begins another, that is exactly when it keeps at least one revision |
| Revisions.RemoveKeepsHistoryIff | services/mddbd/batchdelete.go:136-198 | removing documents keeps it if and only if none of their ids begins the id of a document of the collection that stays |
| Revisions.DeleteKeepsHistoryIff | services/mddbd/document_ops.go:264-313 | a delete keeps it if and only if the deleted id, with a pipe, begins no other stored id of the collection |
| Revisions.DeleteCollectionKeepsHistory | services/mddbd/http_handlers_delete.go:129-184 | deleting a collection always keeps it |
| Revisions.PlainNamesNeverBegin | services/mddbd/util.go:20-45 | with pipe-free names no stored id of a collection begins another |
| Runs.BatchKeepsIndexIff | services/mddbd/batch.go:189-298 | a batch, whatever it repeats, keeps the metadata index exact if and only if every document it writes is covered by its versions |
| Runs.IndexExactIff | services/mddbd/document_ops.go:51-137 | from any start, through any run with pipe-free collections and pipe-free names or pipe-free metadata, the metadata index holds exactly the keys of the stored documents after every transaction if and only if it did at first and every batch is covered in that sense |
| Runs.BatchKeepsKeysIff | services/mddbd/batch.go:189-298 | a batch keeps documents and key index one-to-one if and only if it spells each document in one way, the stored one if there is one |
| Runs.KeysAgreeIff | services/mddbd/document_ops.go:51-137 | from any start, in pipe-free collections, documents and key index stay one-to-one through a run if and only if they were at first and every transaction spells key and language, joined, as stored |
| Runs.HistorySoundIff | services/mddbd/document_ops.go:117-133 | from any start, in pipe-free collections, the newest revision of every document is the document throughout a run if and only if it was at first, every write is recorded with a clock not behind (for batches in the sense of the two lemmas above), and nothing deleted, trimmed or truncated takes the newest revision of a document that stays |
| Batch.BatchIsSequential | services/mddbd/batch.go:189-298 | for a batch whose accepted documents have different ids, preparing against the store as read and committing together leaves all four buckets as single adds do |
| Batch.ConcurrentBatchIsSequential | services/mddbd/batch.go:69-108 | the same when any number of workers prepared the documents in any order |
| Batch.AnyBatchAgreesOffIndex | services/mddbd/batch.go:189-298 | with repeated documents too, documents, key index and revisions come out as one by one |
| Batch.BatchAgreesIff | services/mddbd/batch.go:225-249 | a batch of any length, whatever it repeats, leaves all four buckets as single adds do if and only if for every document the keys of its changed versions up to the last changed one, less those stored at first, with those of that version, are the keys of its last version |
| Batch.SlicesAgreeIff | services/mddbd/batch.go:225-249 | that condition is exactly when indexing each version against the first stored one and against its predecessor agree |
| Batch.DistinctIsTidy | services/mddbd/batch.go:225-249 | a batch of distinct documents always meets it |
| Batch.BatchReadAll | services/mddbd/batch_final.go:63-97 | the single read transaction collects exactly the stored versions of the named documents |
| Batch.FastIsStandard | services/mddbd/batch_final.go:138-195 | the extreme-mode preparation yields what the standard one yields |
| Batch.ConcurrentFastIsSequential | services/mddbd/batch_final.go:37-195 | the extreme mode as a whole, read at once and prepared by any number of workers in any order, commits to what single adds leave |
| Documents.BatchStores | services/mddbd/batch.go:130-183 | after a batch a document has the key, language, metadata and content of the last accepted request for it, the moment as updatedAt, no expiry, and the stored non-zero addedAt or the moment |
| Documents.StepSays | services/mddbd/document_ops.go:51-93 | what one transaction of any kind leaves of any document: gone, or the fields it says and every other field as it was |
| Documents.StoredIsTold | services/mddbd/document_ops.go:28-137 | after every run of transactions a document is stored if and only if a request has written it, or it was there, and none has taken it away since; and every field of it is as the last add, batch version or patch set it that said anything of the field |
| Documents.StaysUntilTold | services/mddbd/document_ops.go:28-137 | through any run a document stays what it is until a request concerns it |
| Documents.AddedAtStays | services/mddbd/document_ops.go:62-66 | through any run that never takes it away a document keeps the time of its first add |
| Documents.FoundUntil | services/mddbd/http_handlers.go:145-201 | through any run that does not concern it, a document added with a time to live is found by searches and by partial updates exactly until that time has passed, and without one at every moment |
| WorkerPool.InvNext | services/mddbd/batch.go:69-108 | every step of the worker pool keeps each job in exactly one place (queue, worker or slot) and every filled slot right |
| WorkerPool.UncancelledBatchIsComplete | services/mddbd/batch.go:69-108 | without cancellation every finished schedule has processed each index exactly once |
| WorkerPool.CancelledBatchLeavesGaps | services/mddbd/batch.go:69-108 | after a cancelled pool a slot is empty exactly when its job is still queued or was dropped, and a filled slot is right and was filled once |
| WorkerPool.GapReached | services/mddbd/batch.go:69-108 | a gap is real: one job sent, the pool cancelled, the one worker takes the job and leaves |
| WorkerPool.AlwaysProgress | services/mddbd/batch.go:69-108 | an unfinished pool always has a step to take |
| WorkerPool.SchedulesAreBounded | services/mddbd/batch.go:69-108 | no schedule is longer than the work to do |
| Binlog.ReplayJoined | services/mddbd/internal/binlog/binlog_entry.go:149-175 | applying two logs in turn is applying them joined |
| Binlog.SwappedFlushIff | services/mddbd/server_restore.go:28-32 | when two transactions reach the log in the other order than they committed, a follower comes out right if and only if they leave the same in every slot both edit |
| Binlog.FlushOrderIff | services/mddbd/server_restore.go:28-32 | when any number of transactions reach the log in any other order than they committed, a follower comes out right if and only if in every slot the last to commit and the last to be logged leave the same |
| Binlog.ApplyBatch | services/mddbd/replication_applier.go:59-106 | a follower applying a received batch has the replayed buckets |
| Server.MetadataEqual | services/mddbd/metadata.go:4-28 | true exactly for equal metadata, order of values included |
| Server.MetadataChanged | services/mddbd/metadata.go:31-44 | true exactly when the metadata differ |
| Server.Server.AddDocument | services/mddbd/document_ops.go:28-137 | a request is accepted exactly with a collection, a key, a language and valid metadata; then the document under its id has the key, language, metadata and content of the request, the moment as updatedAt, the old non-zero addedAt or the moment, and expires ttl later or never; a saved revision is that document, nothing else among the documents changes, and a follower replaying the log has the same buckets |
| Server.Server.UpdateDocument | services/mddbd/http_handlers_meta.go:95-197 | the document its key-index entry leads to, unless expired, gets every field the patch names and keeps every other, id, names and addedAt included; it is saved as a revision, logged, and no other document changes; anything else is refused without a change |
| Server.Server.CommitBatch | services/mddbd/batch.go:189-298 | the commit loop leaves the specified store and log; updated counts the places of prepared documents that replace stored ones, failed those of refused ones, added the rest |
| Server.Server.CommitBatchFast | services/mddbd/batch_final.go:198-337 | the same buckets and counters as the standard commit, without any log: a follower agrees afterwards if and only if nothing changed |
| Server.Server.AddBatchFast | services/mddbd/batch_final.go:37-60 | the extreme mode as a whole leaves what the standard batch leaves, and for distinct documents what single adds leave; updated counts the accepted requests whose document was stored before, failed those without key or language or with invalid metadata |
| Server.Server.DeleteOne | services/mddbd/document_ops.go:259-313 | a delete takes the document, the key entry it spells, its index keys and every revision under its prefix, and nothing else, logged; a missing document changes nothing |
| Server.Server.DeleteBatch | services/mddbd/batchdelete.go:44-208 | exactly the documents named with key and language go, after all lookups and together; deleted counts the places that hit, failed those without key or language, notFound the rest |
| Server.Server.DeleteAll | services/mddbd/http_handlers_delete.go:107-197 | every document of the collection goes, with its entries, keys and revisions, logged; then its configuration goes; a request without a collection changes nothing |
| Server.Server.TruncateAll | services/mddbd/http_handlers.go:386-444 | every history of the collection is cut to its newest revisions, logged |
| Server.Server.TrimRevisions | services/mddbd/revision_retention.go:21-52 | the history is cut when the setting is positive, otherwise left alone |
| Server.AssembleKeys | services/mddbd/batch_final.go:252-290 | keys assembled in one reused buffer are the metadata keys |
| Replication.ExecuteAll | services/mddbd/document_ops.go:28-137 | after any run of adds, updates, batches, deletes and truncations, from any buckets and under configurations that change, the leader holds what the transactions give in order; replaying its whole log from the first buckets gives exactly that, and so does replaying what the run logged from a snapshot taken when it began |
| Search.IndexTells | services/mddbd/http_handlers.go:158-171 | with pipe-free names, or pipe-free metadata and pair, the index has a pair key of a stored document exactly when some pair of the document, with a pipe between key and value, reads the same |
| Search.SelectedIsSeeming | services/mddbd/http_handlers.go:158-172 | the index selects exactly the stored documents that match the filter up to where pipes split a pair |
| Search.PlainSearchIsScan | services/mddbd/http_handlers.go:145-201 | without pipes in the stored metadata or in the filter nothing matches only in that way |
| Search.FilterIds | services/mddbd/http_handlers.go:158-172 | union over values, intersection over keys: exactly the ids the filter selects, each once |
| Search.Intersect | services/mddbd/util.go:60-77 | counting occurrences gives exactly the ids that are in every list |
| Search.SearchDocuments | services/mddbd/http_handlers.go:145-201 | in any store the rows are what the index (or the scan) says, and none has expired; in a readable one a document of the collection is a row if and only if it seems to match and expires never or not before now, each once; these are what a filtered scan returns if and only if none of them matches only by a pair split elsewhere |
| Facets.ResolveMetaFilter | services/mddbd/aggregation.go:97-140 | no limit without a filter, otherwise exactly the ids the filter selects |
| Facets.ComputeFacet | services/mddbd/aggregation.go:143-162 | for every value the number of allowed index keys with it |
| Facets.FacetIsScanIff | services/mddbd/aggregation.go:143-162 | whatever pipes field, names and metadata have, that number is what a scan counts if and only if no stray key (one of another pair, and of no scanned document) is counted and no document has the value, if it has a pipe |
| Facets.PlainFacetIff | services/mddbd/aggregation.go:143-162 | with pipe-free names and metadata: if and only if no pair of a document, with the collection, or the collection and the key, read into it, spells field and value |
| Facets.PlainFieldUnmixed | services/mddbd/aggregation.go:143-162 | a pipe-free field over pipe-free metadata never counts a stray key |
| Facets.ReadableIff | services/mddbd/http_handlers.go:145-201 | through a run whose names stay pipe-free, or whose metadata and filter are, the store stays readable through its index if and only if the index was exact at first and every batch is covered by its versions |
| Facets.FilteredFacet | services/mddbd/aggregation.go:97-162 | in a readable store a filtered facet counts, for a pipe-free value, the documents that match the filter and have it if and only if no stray key is counted and none of them only seems to match; for a pipe-free field over pipe-free metadata always |
| Calendar.NextMonth | services/mddbd/aggregation.go:260-309 | month starts move on by the Gregorian month lengths |
| Calendar.YearStartClosed | services/mddbd/aggregation.go:260-309 | year starts have the closed form of 365 days a year and one more for every leap year |
| Calendar.FourCenturies | services/mddbd/aggregation.go:260-309 | the calendar, weekdays included, repeats after 400 years |
| Calendar.NewYearsWeekday | services/mddbd/aggregation.go:269-272 | the weekday of New Years Day follows the rule of Gauss |
| Calendar.AddMonthsToFirst | services/mddbd/aggregation.go:290-298 | adding months to the first of a month gives the first of the later month |
| Histograms.Align | services/mddbd/aggregation.go:264-279 | the latest start of a day, Monday week, month or year at or before a moment |
| Histograms.GenerateTimeBuckets | services/mddbd/aggregation.go:260-309 | exactly the consecutive days, weeks, months or years from that of the earliest moment through that of the latest, but only the first 1000 of them |
| Histograms.BucketsShape | services/mddbd/aggregation.go:260-309 | these are whole calendar intervals and contiguous |
| Histograms.StartedIff | services/mddbd/aggregation.go:260-309 | an interval has started by a moment if and only if its number is not above that of the interval the moment lies in |
| Histograms.FindBucket | services/mddbd/aggregation.go:335-349 | binary search finds a bucket holding the moment, or -1 exactly when none does |
| Histograms.HoldsIff | services/mddbd/aggregation.go:335-349 | a moment is in at most one bucket, and in one exactly when it lies between the ends |
| Histograms.CollectStamps | services/mddbd/aggregation.go:190-214 | as many stamps in every range as documents |
| Histograms.ComputeHistogram | services/mddbd/aggregation.go:180-250 | rows are whole days, Monday weeks, years or, for any other word, months, in order, each counting the documents stamped in it, at least one; together they count exactly the documents in the first 1000 intervals from the earliest stamp on, and all documents if and only if earliest and latest are less than 1000 intervals apart |
| Histograms.ReachesAllIff | services/mddbd/aggregation.go:282-284 | every stamped document is reached if and only if earliest and latest stamp are less than 1000 intervals apart |
| Histograms.StampedIff | services/mddbd/aggregation.go:190-214 | in a readable store a filtered histogram counts exactly the documents of the collection that seem to match the filter and have a positive stamp in the field asked for |
| Histograms.AddIsDated | services/mddbd/aggregation.go:190-214 | a document just added counts at the moment of the add by its last update, and by its first add at that moment or, if it was stored, where it counted before |
| UnionFinding.HalvingKeepsRoots | services/mddbd/duplicates.go:75-81 | path halving keeps every representative, the rank order along links and the size bound |
| UnionFinding.LinkKeepsWeight | services/mddbd/duplicates.go:83-95 | linking by rank keeps 2^rank elements under every root |
| UnionFinding.UnionFind.Find | services/mddbd/duplicates.go:75-81 | returns the representative, changes no set, and takes at most log2 of the set size many steps |
| UnionFinding.UnionFind.Union | services/mddbd/duplicates.go:83-95 | afterwards two elements are together exactly when they were or one was with x and one with y |
| UnionFinding.UnionFind.constructor | services/mddbd/duplicates.go:67-73 | every element is its own set |
| Duplicates.ComponentsIff | services/mddbd/duplicates.go:309-333 | representatives are equal exactly when a chain of pairs connects the elements |
| Duplicates.ComparePairs | services/mddbd/duplicates.go:319-331 | after the pair loop representatives are those of the pairs that score at least the threshold |
| Duplicates.SymmetricAdjacent | services/mddbd/duplicates.go:322-331 | for a symmetric score the upper triangle decides every pair |
| Duplicates.FindSimilar | services/mddbd/duplicates.go:299-384 | groups have two members or more, do not overlap, and hold two documents together exactly when a chain of high-scoring pairs connects them |
| Duplicates.SinglesAreDropped | services/mddbd/duplicates.go:354-358 | a document is in a group exactly when it is linked to another |
| Chunker.HardSplit | services/mddbd/chunker.go:128-149 | ends for every limit, keeps the non-blank bytes in order, cuts every text that is too long at the last space in the upper half of the limit, or at the limit, and from a trimmed text makes chunks that fit |
| Chunker.CutPoint | services/mddbd/chunker.go:132-139 | the cut is the last space in the upper half of the limit, or the limit |
| Chunker.HardPiecesOnce | services/mddbd/chunker.go:128-149 | a text is cut in one way only |
| Chunker.TrimIs | services/mddbd/chunker.go:16 | trimming takes white space off the two ends and leaves what is between untouched |
| Chunker.SplitSentences | services/mddbd/chunker.go:109-125 | the loop finds the sentences of the text |
| Chunker.SentencesJoin | services/mddbd/chunker.go:109-125 | joined by single spaces the sentences are the text, but for a space at its end |
| Chunker.SentencesEnd | services/mddbd/chunker.go:109-125 | all sentences but the last end in a stop, and within none a stop stands before a space |
| Chunker.SplitLargeParagraph | services/mddbd/chunker.go:68-106 | the sentences, joined by one space each, fill chunk after chunk: a new chunk begins only where the next sentence does not fit, and a sentence that is too long is cut; the chunks fit, hold the non-blank bytes in order and every fitting sentence whole |
| Chunker.ParagraphsJoin | services/mddbd/chunker.go:27 | joining the paragraphs with the double line break gives back the text |
| Chunker.ParagraphsApart | services/mddbd/chunker.go:27 | no paragraph has a double line break in it, and none but the last ends in a line break |
| Chunker.ChunkText | services/mddbd/chunker.go:11-65 | a text that fits is one chunk, a blank one none; of a longer one the paragraphs, joined by double line breaks, fill chunk after chunk: a new chunk begins only where the next paragraph does not fit, and one that is too long is split by sentences; the chunks are non-empty, trimmed and within the limit and hold exactly the non-blank bytes in order, with every fitting paragraph, and fitting sentence of a paragraph that does not fit, whole |
| Chunker.ParagraphsPackedOnce | services/mddbd/chunker.go:27-65 | there is only one such list of chunks for a text and a limit |
| Curation.PinOrder | services/mddbd/curation_apply.go:123-136 | a strict order, total on pins of different keys |
| Curation.CollectPinsAndHides | services/mddbd/curation_apply.go:86-115 | the hidden keys, and for every pinned key its last pin, by rule and by place in the rule: those of positive position first, by position, then the others, and ties by key |
| Curation.LastPinsWin | services/mddbd/curation_apply.go:86-115 | a pin that no later one for its key follows, in its rule or a later rule, wins, and every winner is a pin of some rule |
| Curation.OrderIsUnique | services/mddbd/curation_apply.go:98-114 | the order the map yields its pins in does not matter |
| Curation.InsertionSort | services/mddbd/curation_apply.go:105-113 | in place: sorted, the same pins |
| Curation.ExactSlot | services/mddbd/curation_apply.go:257-282 | with strictly ascending positions a pin is at its requested slot if and only if that slot minus one is at most its index plus the number of organic results |
| Curation.DistinctAscend | services/mddbd/curation_apply.go:86-136 | pins of different positions in pin order have strictly ascending positions |
| Curation.Splice | services/mddbd/curation_apply.go:257-282 | every organic and pinned result is there exactly once, organic ones in order, positive pins at their slots, the others last in order |
| Curation.SelectsEach | services/mddbd/curation_apply.go:257-282 | the two selections of pins hold every pin exactly once |
| Curation.Filter | services/mddbd/curation_apply.go:24-37 | exactly the results whose keys are neither hidden nor pinned, in order |
| Curation.LoadPins | services/mddbd/curation_apply.go:153-178 | the pins that load, in order, positions not descending |
| Curation.ApplyCuration | services/mddbd/curation_apply.go:12-42 | the whole pass: untouched organic results in order, every loadable winning pin spliced in at its slot |
| Curation.NothingTouchedSurvives | services/mddbd/curation_apply.go:12-42 | no organic result with a hidden or pinned key survives, and nothing else appears but loaded winning pins |
| Curation.WinnersAreUnique | services/mddbd/curation_apply.go:86-115 | the winning pins and their order are determined by the rules |
| Rotation.SealOpens | services/mddbd/internal/encryption/encryption.go:241-272 | a fresh envelope names the primary key and decrypts to what was sealed |
| Rotation.VersionIs | services/mddbd/internal/encryption/encryption.go:339-352 | the two magic words tell the versions apart, and anything else passes through as plain |
| Rotation.OldSealOpens | services/mddbd/internal/encryption/encryption.go:301-337 | what one ring sealed another opens that has the key as its primary or a previous one |
| Rotation.FirstVersionOpens | services/mddbd/internal/encryption/encryption.go:285-299 | an envelope of the first version opens with the primary key |
| Rotation.ReadCollection | services/mddbd/encryption_rotate.go:160-172 | the loop reads the collection out of a key |
| Rotation.VisitedIff | services/mddbd/encryption_rotate.go:288-307 | restricted to a collection, a pass visits exactly its documents and revisions |
| Rotation.Job.ProcessOne | services/mddbd/encryption_rotate.go:334-398 | an entry with a collection whose envelope is of version 1, or of version 2 under another key, is sealed afresh by the primary key if it opens and a nonce comes, and fails otherwise; anything else is left alone |
| Rotation.Job.VisitEntry | services/mddbd/encryption_rotate.go:312-330 | the entry ends as just said, and of three counters one moves with scanned, by what became of it |
| Rotation.OutcomeKept | services/mddbd/encryption_rotate.go:379-397 | what an entry becomes has the same plaintext, and if it changed the primary key sealed it |
| Rotation.GroupsPartition | services/mddbd/encryption_rotate.go:312-330 | every visited entry is counted exactly once |
| Rotation.Job.ProcessBucket | services/mddbd/encryption_rotate.go:288-332 | a pass over a bucket: entries outside it untouched, inside kept and counted by group; it finishes exactly when it is not cancelled before an entry; nobody goes without a nonce exactly when every nonce asked for came |
| Rotation.GroupsTell | services/mddbd/encryption_rotate.go:288-332 | a pass leaves nothing stale exactly when nobody is locked or without a nonce, nobody is locked exactly when every stale entry opens, and those that open are the ones that ask for a nonce |
| Rotation.SettledPassIsIdle | services/mddbd/encryption_rotate.go:288-332 | a pass over settled entries rewrites nothing |
| Rotation.Job.ProcessBuckets | services/mddbd/encryption_rotate.go:279-332 | a whole job keeps every plaintext; it finishes exactly when it is not cancelled before one of its entries; then nothing is stale if and only if every stale entry opens and every nonce asked for comes, which is when no error is counted; given the nonces, every envelope that was of version 1 or under another key and opened is counted, names the primary key and opens to the same with all previous keys dropped, and every other entry of a collection is plain, under the primary key, or unchanged and unopenable; on a settled store it is idle |
| Fusion.RankAndCut | services/mddbd/hybrid_search.go:549-565 | best first, as many as asked for, nothing left out scoring higher |
| Fusion.MergeRRF | services/mddbd/hybrid_search.go:517-566 | the top of the union of both lists by their fused reciprocal ranks |
| Fusion.FusedIs | services/mddbd/hybrid_search.go:517-547 | in lists without repeats an id scores one over k and its rank for each list it is in |
| Fusion.PairBeatsIff | services/mddbd/hybrid_search.go:517-547 | exactly when two ranks together beat one |
| Fusion.BothBeatsOne | services/mddbd/hybrid_search.go:517-547 | ranks at most k+1 in both lists beat any rank in one list |
| Fusion.TieBeyond | services/mddbd/hybrid_search.go:517-547 | the bound is sharp: twice rank k+2 ties with rank 1 |
| Fusion.BothComeFirst | services/mddbd/hybrid_search.go:549-565 | in the output a document at ranks at most k+1 in both lists comes before every document of one list only |
| Fusion.MergeAlpha | services/mddbd/hybrid_search.go:443-513 | the top of the union by the blended score |
| Fusion.BlendedIs | services/mddbd/hybrid_search.go:445-500 | a keyword hit scores its vector part plus 1 - alpha times its place between the least and greatest keyword score, and the whole of it, if positive, where all keyword scores are equal, as with a single hit |
| Fusion.VectorOnlyIs | services/mddbd/hybrid_search.go:470-500 | what only the vectors found scores alpha times its vector score |
| Fusion.NormalizedInUnit | services/mddbd/hybrid_search.go:445-466 | normalized keyword scores lie between 0 and 1 |
| Fusion.NormalizedKeepsOrder | services/mddbd/hybrid_search.go:445-466 | normalizing keeps the order of unequal keyword scores exactly |
| Fusion.WeightOneRanks | services/mddbd/hybrid_search.go:443-513 | at weight 1 the output is in the order of the vector scores and nothing left out has a better one |
| Fusion.WeightZeroRanks | services/mddbd/hybrid_search.go:443-513 | at weight 0 a document with more than the least keyword score has only documents with keyword scores at least as high before it, and is left out only for such |
| Fusion.HeavierFavoursVector | services/mddbd/hybrid_search.go:495 | a document with the better vector score that leads keeps its lead under every heavier weight |
| BulkIngest.CommitBatch | services/mddbd/batch.go:189-298 | added, updated and failed count the places of their outcomes, with every error kept; a failed transaction fails all |
| BulkIngest.ProcessBatchWithDocs | services/mddbd/batch_handler.go:103-128 | an error for the whole batch exactly when no document landed |
| BulkIngest.CappedIsFirst | services/mddbd/bulk_ingest_job.go:395-400 | appending under a cap keeps the first of all that came |
| BulkIngest.CountersNext | services/mddbd/bulk_ingest_job.go:247-268 | a chunk moves the counters by its outcomes, or fails whole |
| BulkIngest.BulkJob.ProcessChunk | services/mddbd/bulk_ingest_job.go:247-268 | one chunk: counters balanced at the save, documents handed over in order |
| BulkIngest.BulkJob.Process | services/mddbd/bulk_ingest_job.go:234-284 | every document handed over once in order; in the end added and updated count the places of their outcomes outside failed chunks, failed all others; counters balanced at every save, failed exactly when every document failed, the first 50 errors kept, a cancelled job left alone |
| Converters.CloseBraceIs | services/mddbd/document_converters.go:883-901 | the closing brace found is the first that leaves a balanced argument |
| Converters.StepTakesBackslash | services/mddbd/document_converters.go:848-906 | every rewrite takes a backslash away |
| Converters.TexReplaceCmd | services/mddbd/document_converters.go:848-906 | ends on every text, unbalanced braces included, and leaves no occurrence of the command |
| Converters.TexExpands | services/mddbd/document_converters.go:848-906 | a command with a balanced argument becomes the wrapped argument and rewriting goes on |
| Converters.TexExpandsOptional | services/mddbd/document_converters.go:869-901 | an optional argument in brackets, nested ones included, goes with the command |
| Converters.TexDrops | services/mddbd/document_converters.go:858-881 | without a braced argument only the command and its optional argument go, and of a longer command the name it begins with |
| Converters.TexDropsBrace | services/mddbd/document_converters.go:883-901 | of an argument that is never closed the brace goes as well |
| Converters.ReplaceTagContent | services/mddbd/document_converters.go:318-341 | ends on every text and leaves no complete element at the first opening tag |
| Converters.TagExpands | services/mddbd/document_converters.go:318-341 | a complete element becomes the prefix, its text and the suffix, in that order, and rewriting goes on |
| Converters.ConvertLinks | services/mddbd/document_converters.go:344-381 | ends on every text, whatever the addresses and texts are, and leaves no complete link at the first opening tag |
| Converters.LinkExpands | services/mddbd/document_converters.go:344-381 | the first complete link becomes [text](address), or its text alone when its tag has no address, and rewriting goes on |
| Converters.HrefIs | services/mddbd/document_converters.go:362-371 | the address is what stands between the first href=" of the tag, in any letter case, and the next quote |
| Limits.IdsCollide | services/mddbd/util.go:20-45 | names that differ in case, or with pipes in them, share an id |
| Limits.CaseVariantsDisagree | services/mddbd/document_ops.go:51-93 | adding "Home" and then "home" breaks the agreement of documents and key index |
| Limits.SharedIndexKey | services/mddbd/internal/storage/keys.go:15-17 | with pipes in names and metadata two documents can own one index key |
| Limits.SharedKeyLost | services/mddbd/document_ops.go:281-309 | deleting one of them takes the key from the other |
| Limits.FacetOfPipedField | services/mddbd/aggregation.go:143-162 | after one add of ("k", "en") to "c" with the value "b" under "a", the facet of the field spelled "a", pipe, "b" counts the value "c" once; a scan counts none |
| Limits.SearchResplitsPair | services/mddbd/http_handlers.go:158-172 | after one add with the value "c" under the key "a", pipe, "b", the search for "b", pipe, "c" under "a" returns the document; a scan does not |
| Limits.LastDocumentDropped | services/mddbd/aggregation.go:282-284 | of two documents added 1000 days apart the daily histogram reaches only the first |
| Limits.RepeatedDocumentLeavesKey | services/mddbd/batch.go:225-249 | a batch that names one document twice with other metadata leaves the empty store with an inexact index; single adds do not |
| Limits.DeleteTakesRevisions | services/mddbd/document_ops.go:293-300 | of two stored documents with key "k" and the languages "en", pipe, "x" and "en", deleting the second takes the revisions of the first |
| Limits.TrimTakesOwnRevision | services/mddbd/revision_retention.go:21-52 | with one revision kept, the second of these adds trims the revision it has just written |
| Limits.LongIdsCollide | services/mddbd/keybuilder.go:9-17 | document ids that differ only past the buffer get one built key |
| Limits.ReplacementReturns | services/mddbd/document_converters.go:848-906 | a replacement that contains the command can be rewritten into itself; a limit of the function only, because no caller passes such a replacement (services/mddbd/document_converters.go:748-771) |

## Left out

- bbolt itself: a transaction is atomic, puts succeed, and a cursor yields the keys there were when it started. Deleting under a running cursor, as the delete handlers do, may skip entries in bbolt.
- Encoding, compression and sealing of stored documents: a stored value stands for the document it decodes to, except in `Rotation`.
- Cryptography: a cipher is any pair of functions whose opening undoes its sealing.
- Full-text, vector, geo, spell, expiry, webhook, event and temporal side effects of writes.
- The read cache, which several write paths do not refresh.
- The asynchronous reindexing of services/mddbd/batchupdate.go: its index is exact only eventually.
- HTTP, gRPC, GraphQL and MCP handlers, permissions, configuration and metrics.
- Writers that interleave with the phases of a batch or with a rotation pass: the model runs them alone.
- Replication.ExecuteAll: commit and log flush are one step; the code flushes after `DBUpdate` has returned, so the log of several handlers can be in another order (`Binlog.FlushOrderIff` covers that, apart from the server).
- Paths that never log, as the collection delete of services/mddbd/mcp_direct_client.go:379-429: a follower misses them.
- Cancelling a bulk job that runs, and starting two rotations at once: neither is guarded by the code.
- Float rounding: scores are real numbers. The ranking of groups, facets and histograms by score or label, group scores, and bucket labels.
- Search: sorting and paging of the rows found.
- Overflow of 64-bit time arithmetic in the calendar: times are unbounded integers.
- Unicode: white space and letter case are ASCII only, and a text is its bytes.
- Search.SearchDocuments: the order of the rows is not stated, because the program collects filtered ids from a map.
- Facets.ComputeFacet: ordering by count or value and the cut to the largest are not stated.
- Curation.LoadPins: how a pin finds its document is a parameter; looking it up by key prefix is not modelled.
- Fusion.RankAndCut: the order of equal scores is left open, as the program's sort leaves it.
- BulkIngest.BulkJob.Process: what the batch processor makes of each document is a parameter; puts that fail one by one inside a transaction are not modelled.
- Duplicates.FindSimilar: vectors and their similarity are parameters, and groups come in any order.
- Batch.BatchAgreesIff: batches in which two documents own a common index key, which takes pipes in names and in metadata, are not covered.
- Runs.IndexExactIff: stores and requests with pipes in names and in metadata at once are covered transaction by transaction only (`Indexes.WriteKeepsIndexIff`, `Indexes.UpdateKeepsIndexIff`, `Indexes.RemoveIff`).
- BatchHistory.BatchKeepsHistoryIff: in a capped collection where one id begins another its condition follows the batch request by request; `BatchHistory.UntrimmedBatchIff` has one that can be told before the batch for all others.
