# AI-Lake: a verified model of its catalog, search and cache core

AI-Lake stores vectors in Parquet files behind an Iceberg-compatible catalog. This project
models the parts of it whose correctness is least obvious, in Dafny, and proves what they
promise.

**Commit protocol.** `TableModel`, `CommitSpec` and `CommitHistory` describe a commit and a
schema evolution as functions on a store and `metadata.json`, and prove what any history of
them lists. `CommitMethods` is the commit program itself: loops, store accesses one by one,
metadata updated in place. `JdbcProtocol` and `JdbcSafety` let any number of writers run the
optimistic retry loops step by step over one store and one pointer, with crashes, lost replies
and table drops, and prove that every run is a sequential history of the operations whose
pointer update succeeded. `HadoopCatalog` does the same for the versioned file plus hint file,
where a call may die at any put and a put may take effect unanswered. `CommittedEntries`
compares what is listed with what was requested, `MetadataHistory` says what the metadata and
the statistics files record, and `SchemaHistory` follows schemas, field ids and partition specs.

**Avro manifests.** `AvroBinary` is a decoder for the schema constructs the catalog uses,
written from the Apache Avro 1.11 specification (sections "Binary Encoding" and "Object
Container Files"), with a reference encoder and their round trip. `AvroContainer`,
`PartitionCodec`, `ManifestCodec`, `ManifestFiles`, `DeleteManifests`, `ShiftedDeletes` and
`ManifestLists` are the hand-written encoders and the readers, proved against it. `DecimalText`
and `AvroRecords` support them. The commit model takes the codec as a parameter, and
`StoredManifests` puts the two together: what a catalog lists is what the readers decode from
the bytes its commits wrote, and that is what was committed under two exact conditions.

**Vector search.** `TopK` says what an exact nearest-neighbour answer is. `Hnsw`,
`HnswSearch`, `IvfPq`, `IvfPqSearch`, `VectorSearch`, `PruningGeometry` and `PrunedSearch` are
the graph search, the quantised search, the search of one file, the pruning test and the pruned
search of a table; `Sorting` has the sorts.

**Cache and limiter.** `LruCache`, `CacheKeys`, `CachingStore` and `CacheMethods` are the
byte-bounded cache and the store decorator over it, one call after the other;
`CacheInterleaving` lets any number of calls run interleaved, await by await. `RateLimiter` is
the fixed-window limiter.

**Column bounds.** `ColumnBounds` reduces row-group statistics and truncates byte strings;
`DecimalBounds` is about decimals among them, and `NumberBytes` about bytes as numbers.

`dafny verify dfyconfig.toml` checks everything.

## Where the code and its descriptions differ

- Equality deletes without ids (`ailake-catalog/src/avro_manifest.rs:845-850`) write a zero
  block count and a terminator, one byte too many. The Avro library reads a block by its object
  count and ignores what is left over, so a last delete without ids does no harm; any other
  shifts the records after it by one byte, and deletes are lost or the manifest becomes
  unreadable (`ShiftedDeletes.DeleteManifestRoundTrip`). A reader that insists on using up the
  block rejects both (`DeleteManifests.DeleteManifestStrict`).
- Quantised files report squared distances (`ailake-go/ivfpq.go:164-190`), while pruning
  compares plain distances with the same threshold. For thresholds between 0 and 1, the default
  0.8 included, files holding rows within the threshold can be pruned
  (`PruningGeometry.SafeThresholds`).
- `ailake-catalog/src/column_stats.rs:117` says the byte order matches the decimal order. For
  two's-complement decimals it does so only within one sign (`DecimalBounds`).
- A commit whose reply is lost is reported as failed and is in the table all the same
  (`JdbcSafety.LostReplyWitness`, `HadoopCatalog.Catalog.CommitSnapshot`).
- A partition value does not always come back as written; `PartitionCodec.PartitionRoundTrip`
  gives the exact condition.
- `ailake-catalog/src/column_stats.rs:118-120` says a corrupt row group only loosens a bound.
  If it is the first to contribute, its malformed bytes become the bound; if it comes later it
  is ignored and the bound does not cover it (`ColumnBounds.CorruptFirstGroupWitness`,
  `ColumnBounds.MalformedHaveNoPart`, `ColumnBounds.MalformedNotCovered`).
- A commit's schema update always rewrites the first schema and last-column-id, also when a
  later schema is current, so columns added later can reuse field ids
  (`SchemaHistory.UpdateThenEvolveInHistory`, `SchemaHistory.ReusedIdWitness`).
- Invalidation after a write drops whole-object entries but not the ranges of the path, and a
  path that spells a range shares its key (`CachingStore.RangeAfterOverwrite`,
  `CachingStore.StaleRangeWitness`, `CachingStore.WholeReadsAlwaysExact`,
  `CachingStore.ObjectMistakenRun`).
- A reader that fetches an object before a write and inserts it after the write's invalidation
  leaves the old object in the cache until it expires (`CacheInterleaving.OvertakenReaderRun`).
- A limiter check without any active dimension returns before expired windows are reaped
  (`RateLimiter.ReapedUnlessUncounted`, `RateLimiter.ExpiredHeldWitness`).

## Model

| member | source | states |
|---|---|---|
| `CommitHistory.CurrentListing` | ailake-catalog/src/manifest_commit.rs:190-243 | for every history of commits and evolutions, listing the current snapshot gives exactly the entries decoded from what was added by and since the last Overwrite or Replace, each stamped with its commit's rank; `CommittedEntries` says what those entries are in terms of the requests |
| `CommitHistory.ListingExact` | ailake-catalog/src/manifest_commit.rs:497-509 | the files listed are the files committed if and only if each of them is decoded as it was written |
| `CommitHistory.DeleteListingExact` | ailake-catalog/src/manifest_commit.rs:528-543 | the deletes listed are the deletes committed if and only if every commit's delete manifest is decoded as it was written |
| `CommitHistory.SnapshotListing` | ailake-catalog/src/manifest_commit.rs:478-543 | time travel in a history: the snapshot of commit j lists what was current right after commit j, decoded from the same manifests, however the history goes on |
| `CommitHistory.SnapshotOfCommit` | ailake-catalog/src/manifest_commit.rs:247-264 | looking up a snapshot id finds the record of the commit that made it |
| `CommitHistory.DeleteMasksEarlierCommits` | ailake-catalog/src/provider.rs:127-142 | an equality delete masks a data file (data sequence < delete sequence) if and only if the file came from an earlier commit |
| `CommitHistory.RowIdsTile` | ailake-catalog/src/manifest_commit.rs:165-175 | on V3 tables the fresh row-id ranges found in the stored manifests tile [0, next-row-id) in commit order, without gap or overlap |
| `CommitHistory.CommitTiles` | ailake-catalog/src/manifest_commit.rs:430-437 | the fresh ranges of one commit start where those before ended and end at the advanced counter |
| `CommitHistory.PresetRowIdsKept` | ailake-catalog/src/manifest_commit.rs:166-175 | a preset first_row_id is stored unchanged, and on V2 tables no file ever gets one |
| `CommitHistory.FoldCounts` | ailake-catalog/src/manifest_commit.rs:430-437 | the sequence number counts commits and next-row-id counts exactly the freshly allocated rows (stays 0 on V2) |
| `CommitHistory.RefsStored` | ailake-catalog/src/manifest_commit.rs:177-243 | every manifest a history can reach is in the store |
| `CommittedEntries.RootedExactly` | ailake-catalog/src/manifest_commit.rs:142-160 | the absolute-path test holds if and only if the path starts with a slash or is some text, `://` and some text |
| `CommittedEntries.StoredPaths` | ailake-catalog/src/manifest_commit.rs:142-160 | under an absolute warehouse every stored path is absolute; two requests are stored under one path if and only if they are equal or one spells out the place of the other under the warehouse, so distinct relative requests stay distinct |
| `CommittedEntries.FileInStore` | ailake-catalog/src/manifest_commit.rs:142-187 | for every history, commit j and request i, the file found in the store has the requested record count and size and the commit's sequence number; an absolute path, or any path under a relative warehouse, is kept, and otherwise taking the warehouse and one slash off the stored path gives the request back; partition value, vector statistics and index fields are the requested ones if and only if the codec keeps them |
| `CommittedEntries.DeleteAsAsked` | ailake-catalog/src/manifest_commit.rs:213-232 | a committed delete has the requested ids, counts and size and the commit's number; an absolute path is kept and a relative one put under the table root |
| `CommittedEntries.CurrentAsAsked` | ailake-catalog/src/manifest_commit.rs:478-543 | the current snapshot lists one entry per file requested by and since the last Overwrite or Replace, in request order and as stated there, the extension fields if and only if every commit's files are kept; and the requested deletes when every delete manifest is decoded as written |
| `CommittedEntries.SnapshotAsAsked` | ailake-catalog/src/manifest_commit.rs:478-543 | the same for the snapshot of any commit, in terms of the requests up to it |
| `MetadataHistory.SnapshotRecorded` | ailake-catalog/src/manifest_commit.rs:247-264 | for every history and commit, the record found by its snapshot id has the requested parent, operation and number of files, the clock reading, the commit's rank and its manifest list |
| `MetadataHistory.HistoryRecorded` | ailake-catalog/src/manifest_commit.rs:430-460 | for every history each property has the value last given to it (a commit's own properties before its name mapping), the statistics files listed are exactly those of the commits that had something to write and could store it, and clock, current snapshot and sequence number are those of the last operations |
| `MetadataHistory.PuffinInStore` | ailake-catalog/src/manifest_commit.rs:303-361 | the statistics file of commit j holds the vector statistics of exactly those requested files that have any, in request order, under their stored paths, and the filters handed in |
| `MetadataHistory.PartitionStatsInStore` | ailake-catalog/src/manifest_commit.rs:363-412 | the partition statistics of commit j are computed from exactly the entries its snapshot lists |
| `MetadataHistory.HeaderInStore` | ailake-catalog/src/manifest_commit.rs:112-187 | the manifest of commit j names the schema, the partition specs and the format version the commit was built on |
| `MetadataHistory.JdbcLoads` | ailake-catalog/src/jdbc.rs:190-226 | in every JDBC run the loaded metadata records the published history in this way |
| `MetadataHistory.HadoopLoads` | ailake-catalog/src/hadoop.rs:194-203 | and over every run of Hadoop calls the visible history |
| `CommitMethods.AssignRowIdsInPlace` | ailake-catalog/src/manifest_commit.rs:165-175 | the in-place row-id loop computes the specified assignment and the advanced counter |
| `CommitMethods.PlaceNewFiles` | ailake-catalog/src/manifest_commit.rs:142-175 | absolute paths and row ids of the new files as specified, and the counter after them; each file has the requested record count, size and extension fields, the next sequence number and a path that is the requested one or its place under the warehouse |
| `CommitMethods.CollectManifests` | ailake-catalog/src/manifest_commit.rs:190-211 | manifests inherited on Append and Delete, none on Overwrite and Replace |
| `CommitMethods.CollectDataEntries` | ailake-catalog/src/manifest_commit.rs:363-386 | entries of every readable data manifest of the list, in order |
| `CommitMethods.BuildCommit` | ailake-catalog/src/manifest_commit.rs:112-424 | whichever puts are refused, or take effect without being answered, the store ends with exactly the objects that took effect up to the first failure that aborts; success returns the artifacts of the commit |
| `CommitMethods.WritePuffin` | ailake-catalog/src/manifest_commit.rs:303-361 | vector statistics are written best effort: a failed put changes nothing else, and the file is recorded only when its put was answered |
| `CommitMethods.WritePartitionStats` | ailake-catalog/src/manifest_commit.rs:363-412 | partition statistics over all data manifests of the new list, best effort |
| `CommitMethods.AppliedIsCommitted` | ailake-catalog/src/manifest_commit.rs:463-474 | building then applying a commit yields the metadata the history results speak of |
| `CommitMethods.IcebergMetadata.ApplyCommit` | ailake-catalog/src/manifest_commit.rs:430-460 | the in-place update produces exactly the metadata of the applied artifacts |
| `CommitMethods.IcebergMetadata.ApplyPatch` | ailake-catalog/src/manifest_commit.rs:439-450 | the schema patch rewrites the first schema, last-column-id, specs and name mapping, nothing else |
| `CommitMethods.IcebergMetadata.Evolve` | ailake-catalog/src/jdbc.rs:281-342 | the in-place evolution is the specified one, and changes nothing when the current schema is missing; the new schema holds the old columns in place, with nothing but their names changed by the renames, then the added ones as requested |
| `CommitMethods.RenameColumns` | ailake-catalog/src/jdbc.rs:297-303 | the nested rename loops apply the renames in request order: each column keeps everything but its name, which becomes what the renames one after the other make of it |
| `CommitMethods.AddColumns` | ailake-catalog/src/jdbc.rs:305-328 | added columns take the next field ids in request order |
| `CommitMethods.CommitIntoMetadata` | ailake-catalog/src/manifest_commit.rs:463-474 | the metadata changes only when every aborting put succeeded |
| `CommitMethods.ListFilesFromMetadata` | ailake-catalog/src/manifest_commit.rs:478-509 | the reading loop computes the listing of the snapshot, skipping delete manifests, with errors for missing snapshots or files |
| `CommitMethods.ListDeletesFromMetadata` | ailake-catalog/src/manifest_commit.rs:513-543 | the same for delete manifests |
| `CommitMethods.ManifestsOfSnapshot` | ailake-catalog/src/manifest_commit.rs:483-496 | the manifest list of the requested or last snapshot |
| `SchemaHistory.SchemasOverHistory` | ailake-catalog/src/jdbc.rs:281-342 | over every history without schema updates from any created table: consecutive schema ids, unique field ids at most last-column-id and never reused, renames keep id and type, the resolved partition spec never changes |
| `SchemaHistory.EvolveKeepsSchemas` | ailake-catalog/src/hadoop.rs:237-303 | one evolution of a well-ordered table succeeds and keeps it well ordered |
| `SchemaHistory.RenamesKeepColumns` | ailake-catalog/src/jdbc.rs:297-303 | renames change names only |
| `SchemaHistory.RenamesSpare` | ailake-catalog/src/jdbc.rs:297-303 | a column whose name is no rename's old name is unchanged |
| `SchemaHistory.OneRename` | ailake-catalog/src/jdbc.rs:297-303 | after one rename every column of the old name has the new one, no column of the old name is left unless the two are equal, and all others are unchanged |
| `SchemaHistory.RenamesInOrder` | ailake-catalog/src/jdbc.rs:297-303 | evolving with two lists of renames joined gives the columns of evolving with the first and then with the second |
| `SchemaHistory.EvolvedColumns` | ailake-catalog/src/jdbc.rs:281-342 | the current columns after an evolution: the old ones in place with the names the renames give them, then per added column its requested name, type, nullability and documentation, the next id, and the write default as initial default when only that is given |
| `SchemaHistory.SameResolution` | ailake-catalog/src/metadata.rs:343-423 | the resolved partition spec depends on the schema only through ids and types that evolution keeps |
| `SchemaHistory.NewMetadataGood` | ailake-catalog/src/metadata.rs:157-333 | every freshly created table is well ordered |
| `SchemaHistory.UpdateRemapsSpec` | ailake-catalog/src/manifest_commit.rs:266-301 | after the first real schema replaced the bootstrap one, a partition field points at its column wherever it landed and takes its type |
| `SchemaHistory.UpdateThenEvolve` | ailake-catalog/src/manifest_commit.rs:439-450 | on every table whose schemas are numbered, after a commit that carries a schema update, whatever evolution follows gives unique field ids if and only if the fields then current (the update's own while schema 0 is current, the untouched ones otherwise) are unique and none has an id the evolution hands out |
| `SchemaHistory.UpdateThenEvolveInHistory` | ailake-catalog/src/manifest_commit.rs:439-450 | the same for every table that any history of commits, with or without updates, and evolutions makes of a created one |
| `SchemaHistory.HistoryNumbered` | ailake-catalog/src/jdbc.rs:281-342 | every history from any created table, schema updates included, leaves schema ids consecutive with the last one current |
| `SchemaHistory.EvolveUnique` | ailake-catalog/src/jdbc.rs:281-342 | an evolution gives unique ids if and only if the current fields have unique ids and none of those it hands out |
| `SchemaHistory.ReusedIdWitness` | ailake-query/src/writer.rs:976-979 | add two columns, append a batch of one column, add a column: one schema then holds a field id twice |
| `JdbcSafety.Linearised` | ailake-catalog/src/jdbc.rs:176-235 | in every run of any number of writers with retries and crashes, the pointed-to metadata is the sequential execution of exactly the successful operations in swap order; an acknowledged operation is in it exactly once, and one in it was acknowledged, is about to be, or its writer stopped after its swap |
| `JdbcSafety.WhatWritersKnow` | ailake-catalog/src/jdbc.rs:210-234 | told that it committed, a writer's operation is in the history once; refused or stopped before its swap, it is not; only a writer stopped between swap and reply cannot tell |
| `JdbcSafety.LostReplyWitness` | ailake-catalog/src/jdbc.rs:220-226 | a run in which an operation is published and its writer fails before learning of it |
| `JdbcSafety.NothingLost` | ailake-catalog/src/jdbc.rs:190-226 | in every run the catalog lists exactly the entries decoded from what the successful operations since the last Overwrite or Replace added: one entry per requested file, as in `CommittedEntries.FileInStore`, and the requested deletes when their manifests are decoded as written |
| `JdbcSafety.TimeTravelStable` | ailake-catalog/src/manifest_commit.rs:478-509 | once a commit is in the history, the listings of its snapshot are the same in every continuation of the run |
| `JdbcSafety.PublishedNeverChanges` | ailake-catalog/src/manifest_commit.rs:177-243 | every object of every table ever published and its metadata file stay in the store unchanged, although retries rewrite the same paths |
| `JdbcSafety.RowIdsTileInRun` | ailake-catalog/src/manifest_commit.rs:165-175 | the row-id ranges found in the shared store tile [0, next-row-id) in swap order in every run |
| `JdbcSafety.FailedSwapWitness` | ailake-catalog/src/jdbc.rs:210-226 | a swap that fails while the table exists was overtaken by another writer that published on the very base this one had read |
| `JdbcSafety.ExhaustionWitness` | ailake-catalog/src/jdbc.rs:188-234 | an operation that gives up after five attempts saw at least five updates by distinct other writers since it began (four if the table was dropped) |
| `JdbcSafety.RunKeepsInv` | ailake-catalog/src/jdbc.rs:188-234 | the protocol invariant holds after every sequence of events |
| `JdbcSafety.StepKeepsInv` | ailake-catalog/src/jdbc.rs:190-226 | every step of every writer keeps the invariant |
| `HadoopCatalog.CrashAtomic` | ailake-catalog/src/hadoop.rs:139-174 | over every run of calls and every set of puts that fail, with or without taking effect, a reader loads exactly the metadata of the visible operations and lists exactly the entries decoded from their manifests |
| `HadoopCatalog.CrashAtomicTimeTravel` | ailake-catalog/src/hadoop.rs:176-192 | and every visible snapshot lists what it listed when it was made |
| `HadoopCatalog.AttemptShows` | ailake-catalog/src/hadoop.rs:79-94 | an attempt that stops at any put, or whose put takes effect unanswered, leaves the old table until the hint is written and the complete new one afterwards |
| `HadoopCatalog.RunShows` | ailake-catalog/src/hadoop.rs:60-94 | the same over whole runs from an empty store |
| `HadoopCatalog.CommitOntoLeftovers` | ailake-catalog/src/manifest_commit.rs:190-243 | a commit built over the leftovers of dead attempts writes the same objects as one built over the visible table alone, besides statistics files it does not record |
| `HadoopCatalog.Catalog.CurrentVersion` | ailake-catalog/src/hadoop.rs:60-69 | the version the hint names, 0 without a hint |
| `HadoopCatalog.Catalog.LoadRawMetadata` | ailake-catalog/src/hadoop.rs:71-77 | the metadata a reader loads, or an error |
| `HadoopCatalog.Catalog.SaveMetadata` | ailake-catalog/src/hadoop.rs:79-94 | next version first, hint second, stopping at a failed put |
| `HadoopCatalog.Catalog.CreateTable` | ailake-catalog/src/hadoop.rs:99-132 | creation as an attempt; the store shows the view after it |
| `HadoopCatalog.Catalog.CommitSnapshot` | ailake-catalog/src/hadoop.rs:139-174 | a commit under the lock is an attempt; without the lock nothing changes; it returns its id if and only if it is visible, the lock was released and the put of the hint was answered, so an error does not mean that it is not visible |
| `HadoopCatalog.Catalog.CommitLocked` | ailake-catalog/src/hadoop.rs:139-174 | load, build and save leave exactly the store of the attempt |
| `HadoopCatalog.Catalog.EvolveSchema` | ailake-catalog/src/hadoop.rs:230-303 | an evolution is an attempt; the store shows the view after it, and when it becomes visible the loaded metadata has gained a schema with the old columns renamed as requested and the new ones added |
| `StoredManifests.DataManifestDecoded` | ailake-catalog/src/avro_manifest.rs:254-603 | the entries of the commit model's data manifest are what the reader decodes from the bytes the writer produces for that commit |
| `StoredManifests.SurvivesExactly` | ailake-catalog/src/avro_manifest.rs:526-586 | partition value, vector statistics and index fields of a file come back as written if and only if (key metadata written) its partition text is stored nowhere or cleanly in every column, or (not written) there is nothing else to lose |
| `StoredManifests.FileOnDisk` | ailake-catalog/src/avro_manifest.rs:497-586 | for every history, commit j and request i of a catalog over Avro files: path, counts and sequence number as requested, extension fields if and only if the placed file survives its partition columns |
| `StoredManifests.DeletesDecoded` | ailake-catalog/src/avro_manifest.rs:813-1001 | a commit's deletes are decoded as committed if and only if all but its last name a field, and never more come back than were written |
| `StoredManifests.ListingOnDisk` | ailake-catalog/src/manifest_commit.rs:478-543 | over any part of a history, decoded files are the committed files, and decoded deletes the committed deletes, exactly under those two conditions on every commit |
| `StoredManifests.JdbcListsWhatWasCommitted` | ailake-catalog/src/jdbc.rs:237-246 | in every JDBC run the catalog lists one entry per file requested since the last Overwrite or Replace, with its path, record count, size and sequence number; its extension fields too if and only if all of them survive, and the requested deletes when each but the last of its commit names a field; both listings are the committed ones if and only if those conditions hold |
| `StoredManifests.JdbcSnapshotsListWhatWasCommitted` | ailake-catalog/src/manifest_commit.rs:478-543 | the same for the snapshot of any published commit |
| `StoredManifests.HadoopListsWhatWasCommitted` | ailake-catalog/src/hadoop.rs:176-192 | the same over every run of Hadoop calls with failing puts |
| `StoredManifests.HadoopSnapshotsListWhatWasCommitted` | ailake-catalog/src/hadoop.rs:176-192 | and for the snapshot of any visible commit |
| `AvroBinary.LongLength` | ailake-catalog/src/avro_raw.rs:13-24 | every 64-bit integer takes one to ten bytes |
| `AvroBinary.LongRoundTrip` | ailake-catalog/src/avro_raw.rs:13-24 | every 64-bit integer decodes to itself, whatever follows it |
| `AvroBinary.RoundTrip` | ailake-catalog/src/avro_raw.rs:13-60 | for every schema and well-typed value, the standard's decoder returns the value and exactly the bytes after it |
| `AvroBinary.PrefixFree` | ailake-catalog/src/avro_raw.rs:13-60 | encodings of one schema are prefix-free |
| `AvroContainer.ByteBuffer.EncodeLong` | ailake-catalog/src/avro_raw.rs:13-24 | the shifting loop on 64-bit words appends the zig-zag varint of the number |
| `AvroContainer.ByteBuffer.EncodeInt` | ailake-catalog/src/avro_raw.rs:26-28 | ints are encoded like longs |
| `AvroContainer.ByteBuffer.EncodeBytesField` | ailake-catalog/src/avro_raw.rs:30-38 | length prefix and bytes, for strings and byte fields |
| `AvroContainer.ByteBuffer.EncodeUnionNull` | ailake-catalog/src/avro_raw.rs:41-43 | union branch 0 |
| `AvroContainer.ByteBuffer.EncodeUnionLong` | ailake-catalog/src/avro_raw.rs:46-49 | branch index and long |
| `AvroContainer.ByteBuffer.EncodeUnionBytes` | ailake-catalog/src/avro_raw.rs:52-55 | branch index and bytes |
| `AvroContainer.WriteAvroContainer` | ailake-catalog/src/avro_raw.rs:79-126 | a reader written from the standard recovers from the output exactly the metadata pairs and one block of the records, or none |
| `AvroContainer.ContainerRoundTrip` | ailake-catalog/src/avro_raw.rs:79-126 | the same for the byte layout of any schema text, pairs and records |
| `AvroContainer.SchemaTextRecovered` | ailake-catalog/src/avro_raw.rs:92-98 | the schema text comes back verbatim unless an extra pair reuses its key |
| `AvroContainer.RecordsRoundTrip` | ailake-catalog/src/avro_raw.rs:112-123 | encoded records come back as the same values in the same order, from the count-driven reader and from a strict one |
| `PartitionCodec.EncodePartitionValue` | ailake-catalog/src/avro_manifest.rs:136-164 | one slot, including the overwritten union byte of a malformed integer, is the encoding of the slot value |
| `PartitionCodec.EncodePartition` | ailake-catalog/src/avro_manifest.rs:289-298 | one slot per column from the separator-joined text |
| `PartitionCodec.PartitionTyped` | ailake-catalog/src/avro_manifest.rs:136-164 | the partition record is well typed for every text, malformed integers as null slots |
| `PartitionCodec.PartitionRoundTrip` | ailake-catalog/src/avro_manifest.rs:526-561 | the partition text is read back unchanged if and only if no part is stored natively, or there are no more parts than columns and every part is non-empty and canonical for its column |
| `PartitionCodec.NativeRoundTrip` | ailake-catalog/src/avro_manifest.rs:526-561 | without the copy in the key metadata it is read back unchanged if and only if there is none or every part is clean |
| `PartitionCodec.LeadingZerosLost` | ailake-catalog/src/avro_manifest.rs:534-550 | 007 in an int column is read back as 7 |
| `PartitionCodec.EmptyPartLost` | ailake-catalog/src/avro_manifest.rs:534-557 | an empty first part before a stored one is read back without its separator |
| `DecimalText.IntRoundTrip` | ailake-catalog/src/avro_manifest.rs:144-154 | printing then parsing an integer gives it back, and only negative ones are printed with a sign |
| `DecimalText.JoinSplit` | ailake-catalog/src/avro_manifest.rs:292 | joining the parts of a split text gives the text |
| `DecimalText.SplitJoin` | ailake-catalog/src/avro_manifest.rs:556 | splitting joined separator-free parts gives the parts |
| `ManifestCodec.EncodeIntLongMap` | ailake-catalog/src/avro_manifest.rs:182-204 | the count maps are the encoding of a nullable array of key-value records |
| `ManifestCodec.EncodeIntBytesMap` | ailake-catalog/src/avro_manifest.rs:209-236 | so are the bound maps, entries without a bound skipped |
| `ManifestCodec.EntryTyped` | ailake-catalog/src/avro_manifest.rs:25-56 | every entry value is well typed under the manifest entry schema |
| `ManifestFiles.EncodeDataEntry` | ailake-catalog/src/avro_manifest.rs:269-346 | the hand-written entry is exactly the encoding of its value under the entry schema |
| `ManifestFiles.WriteManifestFile` | ailake-catalog/src/avro_manifest.rs:254-361 | the manifest is the container of the entries of all files in order |
| `ManifestFiles.ReadManifestFile` | ailake-catalog/src/avro_manifest.rs:422-603 | the reading loop collects the entries of the decoded records, with an error for an unreadable container |
| `ManifestFiles.DataObjects` | ailake-catalog/src/avro_manifest.rs:254-361 | decoding a written manifest gives back every record in order |
| `ManifestFiles.ManifestRoundTrip` | ailake-catalog/src/avro_manifest.rs:422-603 | reading a written manifest gives every file back with its path, 64-bit counts, index fields and row id, stamped with the manifest's sequence number |
| `ManifestFiles.DataEntryReadBack` | ailake-catalog/src/avro_manifest.rs:431-598 | the same for one entry, with the partition text as far as it survives |
| `ManifestFiles.StatisticsReadable` | ailake-catalog/src/avro_manifest.rs:301-306 | looking a statistic up by the standard field name and the field id finds exactly what the entry carried, for all five statistics |
| `ManifestFiles.DataHeaderReadable` | ailake-catalog/src/avro_manifest.rs:348-360 | looked up by key, the header of a data manifest gives the schema and spec texts, the number of the spec, version 3 from format version 3 on and 2 otherwise, and data as content |
| `ManifestFiles.DataContentReadable` | ailake-catalog/src/avro_manifest.rs:276-287 | every file of a data manifest is marked as data |
| `ManifestFiles.EntryHeadReadable` | ailake-catalog/src/avro_manifest.rs:277-280 | status, snapshot id and file sequence number are found under their names |
| `DeleteManifests.EncodeDeleteEntry` | ailake-catalog/src/avro_manifest.rs:823-854 | the delete entry is the encoding of its value, plus one stray byte when it names no field |
| `DeleteManifests.WriteEqualityDeleteManifest` | ailake-catalog/src/avro_manifest.rs:813-870 | the delete manifest is the container of its entries in order |
| `DeleteManifests.DeleteManifestStrict` | ailake-catalog/src/avro_manifest.rs:845-850 | a reader that accepts no left-over bytes gets exactly the written entries back if and only if every delete names at least one field |
| `DeleteManifests.ReadEqualityDeleteManifest` | ailake-catalog/src/avro_manifest.rs:877-1001 | the reading loop collects the entries with content 2 of the records decoded by count |
| `ShiftedDeletes.LateEntry` | ailake-catalog/src/avro_manifest.rs:823-854 | a written entry read one byte late is never reported as a delete |
| `ShiftedDeletes.CountedObjects` | ailake-catalog/src/avro_manifest.rs:877-1001 | reading the written records by count gives every entry back when all deletes but the last name a field, and fewer deletes than were written otherwise |
| `ShiftedDeletes.DeleteManifestReadable` | ailake-catalog/src/avro_manifest.rs:845-850 | the catalog's reader decodes exactly the written entries if and only if every delete but the last names at least one field |
| `ShiftedDeletes.DeleteManifestRoundTrip` | ailake-catalog/src/avro_manifest.rs:877-1001 | reading gives the deletes back in order, stamped with the sequence number, if and only if every delete but the last names a field; otherwise the reader fails or reports fewer |
| `ManifestLists.WriteManifestList` | ailake-catalog/src/avro_manifest.rs:769-806 | the list is the container of one record per manifest, added rows on the last |
| `DeleteManifests.DeleteHeaderReadable` | ailake-catalog/src/avro_manifest.rs:858-865 | looked up by key, the header of a delete manifest gives spec 0, version 2 and deletes as content |
| `ManifestLists.ReadManifestList` | ailake-catalog/src/avro_manifest.rs:732-765 | the reading loop collects path and content of each record |
| `ManifestLists.ManifestListRoundTrip` | ailake-catalog/src/avro_manifest.rs:732-765 | reading a written list gives every path and content kind in order; looked up by name, each record has its manifest's length and the commit's snapshot and sequence number, and the added rows are counted on the last record and no other |
| `TopK.SameDistances` | ailake-go/hnsw.go:261-291 | two sorted top-K answers over one set have the same distances |
| `TopK.PartByItsTop` | ailake-go/ailake.go:164-168 | replacing a part by its own top-K does not change the overall top-K |
| `TopK.LargerIsNearer` | ailake-go/ivfpq.go:164-198 | an answer over a larger set is position by position at least as near |
| `Hnsw.GreedyNearest` | ailake-go/hnsw.go:164-185 | the result is what following the nearest neighbour from the entry, as long as one is nearer, ends at: a local minimum of the layer no farther than the entry |
| `Hnsw.Expand` | ailake-go/hnsw.go:230-243 | expanding a node visits all its links and keeps the beam invariant |
| `Hnsw.Offer` | ailake-go/hnsw.go:235-241 | offering a new node keeps the result heap the ef nearest of the visited nodes |
| `Hnsw.BeamSearch` | ailake-go/hnsw.go:211-246 | beam search terminates with the ef nearest (at least one) of all visited nodes, without duplicates, having followed every link of every returned node |
| `Hnsw.NoNearerNeighbour` | ailake-go/hnsw.go:224-226 | no unreturned neighbour of a returned node is closer than any returned node |
| `HnswSearch.Descend` | ailake-go/hnsw.go:143-147 | the descent is the greedy one, layer by layer from the top to layer 1 |
| `HnswSearch.SortCandidates` | ailake-go/hnsw.go:248-257 | the in-place insertion sort yields a sorted permutation |
| `HnswSearch.BeamSeesAll` | ailake-go/hnsw.go:221-245 | on a strongly connected layer a beam as wide as the graph visits every node |
| `HnswSearch.Search` | ailake-go/hnsw.go:135-161 | for every graph the results are the topK nearest of the nodes the beam of max(topK, efSearch) from the end of the greedy descent returns; with layer 0 strongly connected and efSearch at least the node count they have the distances of any exact scan |
| `HnswSearch.SearchIsLocal` | ailake-go/hnsw.go:188-245 | the neighbours of every result were visited, and none of them that was left out is nearer than any result; with fewer than topK results the visited nodes are closed under links |
| `HnswSearch.FlatSearch` | ailake-go/hnsw.go:261-291 | the maintained list is the exact sorted top-K over all nodes |
| `IvfPq.SqEuclidean` | ailake-go/ivfpq.go:222-229 | the loop sums the squared differences |
| `IvfPq.BuildADCTable` | ailake-go/ivfpq.go:207-220 | each table cell is the squared distance of a sub-query to its codebook centroid, zero where the codebook ends early |
| `IvfPq.AdcIsSquaredDistance` | ailake-go/ivfpq.go:164-190 | the lookup-table distance of every entry is the squared Euclidean distance to the vector it stands for, plain and residual |
| `IvfPqSearch.ScanCell` | ailake-go/ivfpq.go:176-191 | a cell contributes exactly its entries with complete codes, each at its lookup distance |
| `IvfPqSearch.ScanCells` | ailake-go/ivfpq.go:164-192 | the candidates are exactly the entries of the probed cells, with one table or one per cell |
| `IvfPqSearch.Search` | ailake-go/ivfpq.go:130-204 | the probed cells are the nprobe first of the ranking (the index's own number when none is asked for, all when there are fewer), and the result is the top-K of their entries; probing all cells is the exhaustive top-K |
| `IvfPqSearch.MoreProbesNoWorse` | ailake-go/ivfpq.go:145-147 | of two searches of one index with one query, the one that probes more cells is at no position farther |
| `Sorting.StableSorts` | ailake-go/ivfpq.go:194-198 | sorting yields a sorted permutation |
| `VectorSearch.SearchFile` | ailake-go/ailake.go:172-284 | a file search returns the undeleted part of what its index search finds, whether exhaustive or not: the graph answer with the requested or default beam, or the top-K of the nearest cells with the index's own number of probes, at true distances; and the exact top-K when its index search is exhaustive |
| `VectorSearch.SearchGraph` | ailake-go/ailake.go:244-255 | the hits of a graph file are its graph search's nodes in order, under the file's row ids |
| `VectorSearch.SearchQuantised` | ailake-go/ailake.go:227-243 | the hits of a quantised file are its quantised search's entries in order, under the stored row ids |
| `VectorSearch.DropDeleted` | ailake-go/ailake.go:261-273 | exactly the hits outside the deletion vector are kept, in order |
| `PrunedSearch.FilterPartition` | ailake-go/ailake.go:119-130 | exactly the files of the partition, in order |
| `PrunedSearch.Prune` | ailake-go/ailake.go:132-148 | exactly the files without centroid or within reach, in order |
| `PruningGeometry.NeverPrunesAHit` | ailake-go/ailake.go:140-143 | under the triangle inequality and covering radii a file with a row whose reported distance is within the threshold is never pruned: any graph file, and a quantised file at any threshold outside (0, 1) |
| `PruningGeometry.ReportsSquare` | ailake-go/ivfpq.go:164-190 | a quantised row reports the square of its distance to the vector its code stands for |
| `PruningGeometry.InReachIsKept` | ailake-go/ailake.go:140-143 | a file with a row in reach, by its true distance, is never pruned, graph or quantised |
| `PruningGeometry.SquaredThresholdWitness` | ailake-go/ailake.go:132-148 | for every threshold strictly between 0 and 1, the default 0.8 included, a covered quantised file holding a row within the threshold is pruned |
| `PruningGeometry.SafeThresholds` | ailake-go/ailake.go:132-148 | a threshold never prunes a quantised file holding a row within it if and only if it is not strictly between 0 and 1 |
| `PrunedSearch.MergeExact` | ailake-go/ailake.go:154-168 | merging exact per-file answers is exact over all their rows |
| `PrunedSearch.Search` | ailake-go/ailake.go:69-170 | the result is the top-K of the surviving files' answers, the survivors being exactly the files of the partition that pass the pruning test (top-K 10, beam five times that and threshold 0.8 when not given). With exact searches of the surviving files and covering radii in the partition: if the true top-K of the partition is in reach, or within the threshold where that is safe for its quantised files, the merged result has exactly its distances, on tables of graph and quantised files; an error only for a query of the wrong dimension |
| `LruCache.RemoveKeeps` | ailake-cache/src/lib.rs:699-704 | removal keeps the queue a duplicate-free listing of the keys and the byte count the sum of sizes |
| `LruCache.TouchKeeps` | ailake-cache/src/lib.rs:529-535 | a hit keeps the invariant |
| `LruCache.InsertSurvivors` | ailake-cache/src/lib.rs:584-610 | after an insert the survivors are exactly the longest suffix of the recency order that fits, within the limit |
| `LruCache.QueueIsRecencyOrder` | ailake-cache/src/lib.rs:529-535 | in every run of hits, insertions with evictions and removals the invariant holds and the queue lists the entries in order of last use |
| `LruCache.OversizedEvictsAll` | ailake-cache/src/lib.rs:601-609 | a value larger than the limit evicts everything, itself included |
| `CacheKeys.KeyInjective` | ailake-cache/src/lib.rs:508-517 | under one namespace and scope a key determines kind, snapshot and identity |
| `CacheKeys.RangeInjective` | ailake-cache/src/lib.rs:774-777 | a range identity determines path and bounds |
| `CachingStore.RunCoherent` | ailake-cache/src/lib.rs:767-797 | every run of reads, writes, deletes and observations keeps the cache coherent with the inner store and within its limit |
| `CachingStore.WholeReadsExact` | ailake-cache/src/lib.rs:767-797 | in every run a whole-object read of a path without # returns what the inner store holds |
| `CachingStore.WholeReadsAlwaysExact` | ailake-cache/src/lib.rs:767-797 | for every path: whole reads of it are exact in every run from every inner store if and only if it is not the text of a range, of a cached path, that fits the cache |
| `CachingStore.RangeReadsExact` | ailake-cache/src/lib.rs:846-868 | from any coherent cache without an outdated copy of the range, range reads agree with the inner store after any operations that do not write the path |
| `CachingStore.UnwrittenRangesExact` | ailake-cache/src/lib.rs:767-797 | in every run from an empty cache a range of a path the run does not write is read exactly |
| `CachingStore.RangeAfterOverwrite` | ailake-cache/src/lib.rs:846-868 | after an overwrite or deletion of its path the next read of a range is exact if and only if no live entry answers it (path not cached, entry absent, expired, or its key ending with the path) or that entry happens to hold the new bytes |
| `CachingStore.ReadIsInnerRead` | ailake-cache/src/lib.rs:767-797 | in a coherent world a read is a read of the inner store, except for paths that spell a range that can be cached and ranges written since |
| `CachingStore.ChangedKeeps` | ailake-cache/src/lib.rs:668-680 | invalidation by suffix drops every whole-object entry of the written path |
| `CachingStore.RangeSurvives` | ailake-cache/src/lib.rs:668-680 | a cached range survives an overwrite of its path, unchanged, if and only if its key does not end with the path |
| `CachingStore.StaleRangeWitness` | ailake-cache/src/lib.rs:846-850 | read, put, read from an empty cache: the second read returns the old byte |
| `CachingStore.StaleRangeRun` | ailake-cache/src/lib.rs:846-850 | the same for every cached path not ending in a digit, every range that fits the cache and every new content, until the entry expires |
| `CachingStore.RangeMistakenRun` | ailake-cache/src/lib.rs:774-787 | read a range from an empty cache, then the object whose path is its text: the second read returns the range's bytes whatever the object holds, for every cached path and every range that fits |
| `CachingStore.ObjectMistakenRun` | ailake-cache/src/lib.rs:774-787 | and the other way round: after a read of that object its bytes are returned for the range, even when the path does not exist |
| `CachingStore.SameKind` | ailake-cache/src/lib.rs:759-765 | a path and the text of any of its ranges have the same cache kind |
| `CachingStore.RangeTextCached` | ailake-cache/src/lib.rs:750-757 | the text of a range of a cached path is a cached path |
| `CacheKeys.PathClasses` | ailake-cache/src/lib.rs:750-765 | which paths are of the metadata kind and which are not cached at all, by the words that occur in them |
| `CachingStore.ObservedExactly` | ailake-cache/src/lib.rs:612-629 | observing a snapshot keeps an entry of the scope if and only if it is of that snapshot, or its namespace and scope part or its identity happens to spell the number between colons; keys without the scope's text stay, and what stays is unchanged |
| `CachingStore.SnapshotTextsDiffer` | ailake-cache/src/lib.rs:508-517 | the snapshot part of a key is the number's text if and only if the snapshot is that number |
| `CacheInterleaving.RunKeeps` | ailake-cache/src/lib.rs:767-868 | in every interleaving of reads, writes, deletes and observations, every await a step of its own, entries of whole objects are current, or a write of the path is in flight, or an overtaken reader inserted them |
| `CacheInterleaving.OutdatedOnlyIfOvertaken` | ailake-cache/src/lib.rs:767-797 | with no write of the path in flight, a whole read is exact if and only if it is not answered from an entry with other bytes that was inserted by a reader overtaken by a write since its fetch |
| `CacheInterleaving.ExactUnlessOvertaken` | ailake-cache/src/lib.rs:767-850 | if writes of the path take effect only while no whole read of it holds a fetched value, every whole read is exact whenever no write is in flight |
| `CacheInterleaving.OvertakenReaderRun` | ailake-cache/src/lib.rs:788-796 | a reader fetches, a write starts and finishes, the reader inserts: until the entry expires a whole read is exact if and only if the write changed nothing |
| `CacheMethods.CacheManager.Get` | ailake-cache/src/lib.rs:519-558 | the lookup as specified: a live entry moves to the recent end, an expired one goes |
| `CacheMethods.CacheManager.InsertLocal` | ailake-cache/src/lib.rs:584-610 | insertion and eviction as specified, leaving a valid cache |
| `CacheMethods.CacheManager.RemoveLocal` | ailake-cache/src/lib.rs:699-704 | removal as specified |
| `CacheMethods.CacheManager.DropIdentity` | ailake-cache/src/lib.rs:668-680 | removes every entry of the scope whose key ends with the identity |
| `CacheMethods.CacheManager.DropOtherSnapshots` | ailake-cache/src/lib.rs:615-628 | removes the scope's entries of other snapshots |
| `CacheMethods.Store.ReadObject` | ailake-cache/src/lib.rs:767-797 | bypass, hit or fetch-and-cache as specified, equal to the inner read wherever the entry cannot be stale |
| `CacheMethods.Store.PutObject` | ailake-cache/src/lib.rs:846-850 | write through, then invalidate; nothing on a refused write |
| `CacheMethods.Store.DeleteObject` | ailake-cache/src/lib.rs:864-868 | delete, then invalidate; nothing on a missing object |
| `CacheMethods.Store.ObserveSnapshot` | ailake-cache/src/lib.rs:633-639 | records the snapshot and drops older entries |
| `RateLimiter.Limiter.Check` | ailake-cache/src/lib.rs:258-357 | reap, count and decide as specified; a denial names an identity over its limit; only live windows remain after a counted check |
| `RateLimiter.Limiter.CountOne` | ailake-cache/src/lib.rs:329-338 | one identity is counted in its live or a new window, and over its limit exactly when the new count exceeds it |
| `RateLimiter.CheckAt` | ailake-cache/src/lib.rs:322-342 | a check counts each of its identities in its live or a new window and leaves live others alone |
| `RateLimiter.OnlyLiveHeld` | ailake-cache/src/lib.rs:324-327 | after a counted check only identities with a live window are held |
| `RateLimiter.ReapedUnlessUncounted` | ailake-cache/src/lib.rs:276-327 | only live windows are held after a check if and only if the check counted anything or all were live before it |
| `RateLimiter.ExpiredHeldWitness` | ailake-cache/src/lib.rs:276-327 | an expired window that is still held after a check without identities |
| `RateLimiter.PerWindow` | ailake-cache/src/lib.rs:329-342 | for every request sequence with a monotone clock at most the limit is allowed per class and identity in each window |
| `RateLimiter.PerInterval` | ailake-cache/src/lib.rs:329-342 | and at most twice the limit minus one in any half-open interval of one window length |
| `RateLimiter.AllowedExactly` | ailake-cache/src/lib.rs:251-357 | a request is allowed if and only if neither its token nor its address has used up its live window, a search being judged by the two search limits and a write by the two write limits, and a limit of zero being none |
| `RateLimiter.ConfiguredLimits` | ailake-cache/src/lib.rs:251-256 | the interval bound with the configured numbers: search per token, write per token, search per address, write per address |
| `RateLimiter.BoundIsReached` | ailake-cache/src/lib.rs:329-342 | that bound is attained for every class, identity and limit, at every window of two or more ticks |
| `ColumnBounds.TruncateUpper` | ailake-catalog/src/column_stats.rs:208-221 | the loop computes the cut |
| `ColumnBounds.LowerStaysBelow` | ailake-catalog/src/column_stats.rs:195-201 | the cut lower bound stays below every value |
| `ColumnBounds.UpperStaysAbove` | ailake-catalog/src/column_stats.rs:203-221 | the cut upper bound stays above every value |
| `ColumnBounds.UpperIsTightest` | ailake-catalog/src/column_stats.rs:203-221 | it is the least string of at most sixteen bytes that does, and is omitted if and only if the first sixteen bytes are all 0xFF, when none exists |
| `ColumnBounds.Accum.MergeBounds` | ailake-catalog/src/column_stats.rs:97-112 | a bound is replaced only by one comparing strictly beyond it; deprecated statistics are ignored |
| `ColumnBounds.Accum.Finish` | ailake-catalog/src/column_stats.rs:160-191 | byte-string bounds are cut, others passed through |
| `ColumnBounds.ExtractColumn` | ailake-catalog/src/column_stats.rs:75-94 | the loop over row groups computes counts and reduced bounds of a column |
| `ColumnBounds.IntegersCompareNumerically` | ailake-catalog/src/column_stats.rs:121-131 | little-endian integers of the right length compare as the numbers they decode to; `NumberBytes.SignedBack` says that those are the numbers encoded |
| `ColumnBounds.BoundsBracket` | ailake-catalog/src/column_stats.rs:97-191 | whenever every group holding a value has honest statistics and the first contributing group is well formed, the emitted bounds bracket every value: numerically for integers, lexicographically for byte strings; restated for given numbers in `NumberBytes.IntegerBounds` |
| `ColumnBounds.UpperOmitted` | ailake-catalog/src/column_stats.rs:174-183 | the upper bound is omitted only when the maximum starts with sixteen 0xFF bytes |
| `ColumnBounds.FirstGroupDecides` | ailake-catalog/src/column_stats.rs:114-120 | the reduced bounds have the right length if and only if those of the first contributing group have |
| `ColumnBounds.MalformedLaterIgnored` | ailake-catalog/src/column_stats.rs:114-120 | later malformed statistics change nothing, so they do not widen the bound either |
| `ColumnBounds.MalformedHaveNoPart` | ailake-catalog/src/column_stats.rs:114-120 | dropping all malformed groups after the first contributing one, wherever they stand, changes neither bound |
| `ColumnBounds.MalformedNotCovered` | ailake-catalog/src/column_stats.rs:114-120 | a value of such a group that lies outside the emitted bounds |
| `ColumnBounds.CorruptFirstGroupWitness` | ailake-catalog/src/column_stats.rs:114-120 | a corrupt first group leaves a malformed bound whatever honest groups follow |
| `NumberBytes.SignedBack` | ailake-catalog/src/column_stats.rs:148-153 | for every number in the signed range of four or eight bytes, decoding its bytes (byte k being the number modulo 256^w, divided by 256^k, modulo 256) gives it back |
| `NumberBytes.UnscaledBack` | ailake-catalog/src/column_stats.rs:114-131 | the same for big-endian decimals of every width |
| `NumberBytes.IntegerBounds` | ailake-catalog/src/column_stats.rs:97-191 | for values and statistics given as numbers: the emitted bounds are the bytes of the least minimum and of the greatest maximum of the row groups, and as numbers they bracket every value |
| `NumberBytes.IntegerBoundsEmitted` | ailake-catalog/src/column_stats.rs:97-191 | both bounds are there as soon as one row group holds numbers |
| `NumberBytes.FloatsByFields` | ailake-catalog/src/column_stats.rs:132-139 | floats are ordered by sign, then by exponent and fraction, the other way round below zero |
| `NumberBytes.FloatsCompareNumerically` | ailake-catalog/src/column_stats.rs:132-139 | finite floats compare as the numbers their fields stand for |
| `NumberBytes.FloatBounds` | ailake-catalog/src/column_stats.rs:97-191 | finite bounds of a float column bracket its finite values as numbers |
| `DecimalBounds.LexIsNumericWithinSign` | ailake-catalog/src/column_stats.rs:114-118 | between big-endian two's-complement decimals of one length the lexicographic order is the numeric one if and only if both have the same sign |
| `DecimalBounds.DecimalBoundsBracket` | ailake-catalog/src/column_stats.rs:97-191 | the bounds emitted for a fixed-length decimal column bracket the row groups' statistics as numbers if and only if the minima are of one sign, and the maxima are |
| `DecimalBounds.DecimalBoundsWitness` | ailake-catalog/src/column_stats.rs:114-118 | row groups holding -1 and 1: the emitted lower bound is 1 |

## Left out

- Services and plumbing: HTTP, SQL text, AWS, Redis and OAuth code, the Glue, Nessie,
  Databricks and DuckLake catalogs, the circuit breaker, metrics, logging and GPU delegation.
- Library formats: JSON, base64, bincode, Parquet and Puffin contents are opaque values; the
  Avro schema text is an opaque byte string assumed to parse to the modelled schema, and
  UTF-8 validity of strings is not checked.
- Store paths in the commit model are structured values rather than strings; the file names
  they stand for are distinct by their fixed prefixes and suffixes.
- Manifest lengths and row counts in manifest lists of the commit model, and 32- and 64-bit
  overflow of versions, row ids and sequence numbers; the Avro model does have 64-bit integers.
- Store reads of existing paths are assumed to succeed, distinct commits to have distinct
  snapshot ids, and metadata UUIDs to be fresh.
- Hadoop: `drop_table`, lock expiry, and evolutions concurrent with commits, which take no lock.
- Native deletion vectors written by other engines (`avro_manifest.rs:643-699`) and the
  equality-delete value files (`avro_manifest.rs:1003-1078`), which use the Avro library.
- Floating point: distances, centroids and lookup tables are real numbers; rounding, NaN,
  half precision and query normalisation are not modelled, and the distance is a parameter.
- Index deserialisation and row filtering of scans; deletion vectors are a set of positions.
- VectorSearch.SearchFile: the vector dimension and metric stored in the file header are taken
  to agree with the table's, and remote search of quantised files is not modelled.
- StoredManifests.ListingOnDisk: integers and lengths have the ranges of their Rust types; a
  manifest list is taken to decode as `ManifestLists.ManifestListRoundTrip` states, and lengths
  the Avro library refuses to allocate are not modelled.
- JdbcSafety.TimeTravelStable: that the deletes of a snapshot can be listed at all is not part
  of it, because a commit with a delete without ids before another can leave an unreadable
  delete manifest; the listing, an error included, still never changes.
- DecimalBounds.DecimalBoundsBracket: decimals of up to sixteen bytes, which are not cut.
- PrunedSearch.Search: without the triangle inequality, as for cosine and dot product, only the
  exactness over the files that survive pruning is stated.
- IvfPqSearch.MoreProbesNoWorse: the sort is any function of its input that sorts, the same in
  both searches; a sort that breaks ties differently on equal inputs is not covered.
- LruCache.InsertSurvivors: byte counts are unbounded, so the saturating additions of the
  source are not distinguished from plain ones.
- CachingStore.RunCoherent: one caching store, local tier only; other users of the same cache
  and writes that bypass the store are not modelled.
- CacheInterleaving.OutdatedOnlyIfOvertaken: whole reads only; interleaved range reads are
  steps of the model, but nothing is stated about their answers.
- RateLimiter.PerWindow: limits below the maximal 64-bit value, where the saturating counter
  still exceeds the limit; digests are taken to be collision free, and retry times are left out.
- ColumnBounds.BoundsBracket: the deprecated 96-bit timestamps, which compare equal, are
  excluded; columns are reduced one at a time.
- JSON key metadata is assumed to round-trip; its non-finite radius filter is not modelled.
