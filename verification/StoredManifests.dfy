/** The codec of the Avro manifests, and the two halves of the model put together: what the
    catalogs list is what their commits wrote, decoded from the bytes, and it is what was
    committed exactly when every partition text survives its columns and every delete but
    the last of its commit names a field. */
module StoredManifests {
  import opened Wrappers
  import opened TableModel
  import opened CommitSpec
  import opened CommitHistory
  import opened CommittedEntries
  import JdbcProtocol
  import JdbcSafety
  import HadoopCatalog
  import A = AvroContainer
  import B = AvroBinary
  import P = PartitionCodec
  import C = ManifestCodec
  import M = ManifestFiles
  import D = DeleteManifests
  import S = ShiftedDeletes

  // ---- the codec -----------------------------------------------------------------

  /** What surrounds the records: the JSON library, the column statistics written with a file
      (no reader returns them) and the text parts of a delete manifest. */
  datatype Format = Format(
    json: M.Json,
    columnStats: DataFile -> Option<C.Stats>,
    deleteSchema: Text,
    deleteMeta: seq<A.Pair>)

  /** The manifest entry written for a data file. */
  function EntryOf(fmt: Format, f: DataFile): M.DataFileEntry {
    M.DataFileEntry(f.path, f.recordCount, f.fileSize, M.IndexInfo(f.vectorStats, f.payload), f.partitionValue,
                    f.firstRowId, fmt.columnStats(f), f.sequenceNumber)
  }

  /** The entry a reader returns for a data file. */
  function AsRead(f: DataFile): M.DataFileEntry {
    M.DataFileEntry(f.path, f.recordCount, f.fileSize, M.IndexInfo(f.vectorStats, f.payload), f.partitionValue,
                    f.firstRowId, None, f.sequenceNumber)
  }

  function AvroExtras(fmt: Format, columns: seq<ResolvedField>, f: DataFile): Extras {
    var e := M.ReadBack(columns, fmt.json, EntryOf(fmt, f), f.sequenceNumber);
    Extras(e.partitionValue, e.index.vectorStats, e.index.payload)
  }

  /** The bytes of a commit's delete manifest. */
  function DeleteBytes(fmt: Format, id: SnapshotId, number: int, ds: seq<EqualityDelete>): Text {
    A.ContainerBytes(fmt.deleteSchema, fmt.deleteMeta, D.DeleteRecords(ds, id, number))
  }

  function AvroDeletes(fmt: Format, id: SnapshotId, number: int, ds: seq<EqualityDelete>): Result<seq<EqualityDelete>> {
    var r := D.DecodedDeletes(DeleteBytes(fmt, id, number, ds));
    if r.None? then Err("manifest unreadable") else Ok(r.value)
  }

  /** The catalog reads and writes the Avro files. */
  ghost predicate Avro(cfg: Config, fmt: Format) {
    && M.Faithful(fmt.json)
    && (forall columns, f :: cfg.codec.extras(columns, f) == AvroExtras(fmt, columns, f))
    && (forall id, number, ds :: cfg.codec.deletes(id, number, ds) == AvroDeletes(fmt, id, number, ds))
  }

  /** Such a catalog exists for every faithful JSON library. */
  function AvroConfig(warehouse: Text, tableRoot: Text, fmt: Format): Config {
    Config(warehouse, tableRoot,
           Codec((columns, f) => AvroExtras(fmt, columns, f), (id, number, ds) => AvroDeletes(fmt, id, number, ds)))
  }

  lemma {:induction false} AvroConfigIsAvro(warehouse: Text, tableRoot: Text, fmt: Format)
    requires M.Faithful(fmt.json)
    ensures Avro(AvroConfig(warehouse, tableRoot, fmt), fmt)
  {
    hide AvroExtras, AvroDeletes, M.Faithful;
  }

  // ---- data manifests ------------------------------------------------------------

  function EntriesOf(fmt: Format, files: seq<DataFile>): (r: seq<M.DataFileEntry>)
    ensures |r| == |files| && forall i :: 0 <= i < |r| ==> r[i] == EntryOf(fmt, files[i])
  {
    seq(|files|, i requires 0 <= i < |files| => EntryOf(fmt, files[i]))
  }

  function AllAsRead(files: seq<DataFile>): (r: seq<M.DataFileEntry>)
    ensures |r| == |files| && forall i :: 0 <= i < |r| ==> r[i] == AsRead(files[i])
  {
    seq(|files|, i requires 0 <= i < |files| => AsRead(files[i]))
  }

  lemma {:induction false} FileDecoded(fmt: Format, cfg: Config, columns: seq<ResolvedField>, f: DataFile)
    requires Avro(cfg, fmt)
    ensures M.ReadBack(columns, fmt.json, EntryOf(fmt, f), f.sequenceNumber) == AsRead(Decoded(cfg, columns, f))
  {
    hide P.NativePartition, P.ReadPartition, P.SlotValues, M.Faithful;
    assert cfg.codec.extras(columns, f) == AvroExtras(fmt, columns, f);
  }

  /** The entries of the model's data manifest are what the reader decodes from the bytes the
      writer produced for the commit. */
  lemma {:induction false} DataManifestDecoded(
    fmt: Format, cfg: Config, meta: Metadata, snap: NewSnapshot, schemaText: Text, extra: seq<A.Pair>)
    requires Avro(cfg, fmt) && B.IsI64(snap.id) && B.IsI64(meta.lastSequenceNumber + 1)
    requires var files := CommittedFiles(cfg, meta, snap);
      && (forall i :: 0 <= i < |files| ==> M.EntryFits(EntryOf(fmt, files[i])))
      && A.Writable(schemaText, extra,
           A.EncodeAll(C.EntrySchema(Columns(meta)),
                       M.DataValues(Columns(meta), fmt.json, EntriesOf(fmt, files), snap.id, meta.lastSequenceNumber + 1)))
    ensures var columns := Columns(meta);
      var bytes := A.ContainerBytes(schemaText, extra,
        A.EncodeAll(C.EntrySchema(columns),
                    M.DataValues(columns, fmt.json, EntriesOf(fmt, CommittedFiles(cfg, meta, snap)), snap.id,
                                 meta.lastSequenceNumber + 1)));
      && M.ManifestObjects(columns, bytes).Some?
      && M.ReadDataEntries(columns, fmt.json, M.ManifestObjects(columns, bytes).value) ==
           AllAsRead(DataManifestOf(cfg, meta, snap).files)
  {
    hide A.Writable, A.ContainerBytes, A.EncodeAll, C.EntrySchema, M.DataValues, M.ManifestObjects, M.ReadDataEntries,
         M.ReadBack, M.EntryFits, Columns, Decoded, EntryOf, AsRead, B.IsI64;
    var columns, files, number := Columns(meta), CommittedFiles(cfg, meta, snap), meta.lastSequenceNumber + 1;
    hide Avro;
    AvroFaithful(cfg, fmt);
    M.ManifestRoundTrip(columns, fmt.json, EntriesOf(fmt, files), snap.id, number, schemaText, extra);
    CommittedStamped(cfg, meta, snap);
    hide CommittedFiles;
    forall i | 0 <= i < |files|
      ensures M.ReadBack(columns, fmt.json, EntryOf(fmt, files[i]), number) == AsRead(Decoded(cfg, columns, files[i]))
    {
      FileDecoded(fmt, cfg, columns, files[i]);
    }
    assert M.ReadBacks(columns, fmt.json, EntriesOf(fmt, files), number)
        == AllAsRead(DecodedFiles(cfg, columns, files));
  }

  lemma {:induction false} AvroFaithful(cfg: Config, fmt: Format)
    requires Avro(cfg, fmt)
    ensures M.Faithful(fmt.json)
  {
    hide M.Faithful;
  }

  lemma {:induction false} CommittedStamped(cfg: Config, meta: Metadata, snap: NewSnapshot)
    ensures forall i :: 0 <= i < |CommittedFiles(cfg, meta, snap)| ==>
      CommittedFiles(cfg, meta, snap)[i].sequenceNumber == meta.lastSequenceNumber + 1
  {
    hide AssignRowIds, AbsoluteFiles;
  }

  /** The extension fields of the file come back as they were: with the key metadata written,
      when no part of the partition text is stored in the partition columns or all of it is
      stored cleanly; without it, when there is nothing else to lose. */
  predicate Survives(fmt: Format, columns: seq<ResolvedField>, f: DataFile) {
    var parts := P.PartsOf(f.partitionValue);
    if fmt.json.write(M.ExtensionOf(EntryOf(fmt, f))).Some?
    then P.NoneStored(columns, parts) || P.AllClean(columns, parts)
    else f.vectorStats == None && f.payload == "" && (f.partitionValue.None? || P.AllClean(columns, parts))
  }

  lemma {:induction false} SurvivesExactly(fmt: Format, columns: seq<ResolvedField>, f: DataFile)
    ensures AvroExtras(fmt, columns, f) == ExtrasOf(f) <==> Survives(fmt, columns, f)
  {
    hide P.NativePartition, P.SlotValues, P.ReadPartition, P.NoneStored, P.AllClean, P.PartsOf;
    P.PartitionRoundTrip(columns, f.partitionValue);
    P.NativeRoundTrip(columns, f.partitionValue);
  }

  // ---- delete manifests ----------------------------------------------------------

  /** The commit's deletes have the ranges of their Rust types, and so have the lengths of the
      manifest written for them. */
  ghost predicate DeletesInRange(fmt: Format, cfg: Config, ops: seq<Op>, j: nat)
    requires j < |ops|
  {
    ops[j].Commit? ==>
      var id, number, ds := ops[j].snap.id, CommitCount(ops[..j]) + 1, AddedDeletes(cfg, ops, j);
      S.DeletesFit(ds, id, number) && A.Writable(fmt.deleteSchema, fmt.deleteMeta, D.DeleteRecords(ds, id, number))
  }

  lemma {:induction false} AlreadyStamped(cfg: Config, ops: seq<Op>, j: nat)
    requires j < |ops| && ops[j].Commit?
    ensures D.Stamped(AddedDeletes(cfg, ops, j), CommitCount(ops[..j]) + 1) == AddedDeletes(cfg, ops, j)
    ensures S.NamedButLast(AddedDeletes(cfg, ops, j)) <==> S.NamedButLast(ops[j].snap.equalityDeletes)
  {
    hide CommitCount, IsAbsolute;
    var number, ds := CommitCount(ops[..j]) + 1, AddedDeletes(cfg, ops, j);
    assert forall i :: 0 <= i < |ds| ==> ds[i].equalityIds == ops[j].snap.equalityDeletes[i].equalityIds;
    assert forall i :: 0 <= i < |ds| ==> ds[i].(sequenceNumber := number) == ds[i];
    assert |ds| == |ops[j].snap.equalityDeletes|;
  }

  lemma {:induction false} DeletesDecoded(fmt: Format, cfg: Config, ops: seq<Op>, j: nat)
    requires j < |ops| && Avro(cfg, fmt) && DeletesInRange(fmt, cfg, ops, j)
    ensures NotMore(cfg, ops, j)
    ensures DeletesKept(cfg, ops, j) <==> (ops[j].Commit? ==> S.NamedButLast(ops[j].snap.equalityDeletes))
  {
    hide A.Writable, A.ContainerBytes, D.DeleteRecords, D.DecodedDeletes, S.NamedButLast, S.DeletesFit, M.Faithful, CommitCount;
    if ops[j].Commit? {
      var id, number, ds := ops[j].snap.id, CommitCount(ops[..j]) + 1, AddedDeletes(cfg, ops, j);
      S.DeleteManifestRoundTrip(ds, id, number, fmt.deleteSchema, fmt.deleteMeta);
      AlreadyStamped(cfg, ops, j);
      AddedLength(cfg, ops, j);
      hide AddedDeletes;
      assert cfg.codec.deletes(id, number, ds) == AvroDeletes(fmt, id, number, ds);
      if ds == [] {
        S.AtMostOneNamed(ops[j].snap.equalityDeletes);
      }
    }
  }

  lemma {:induction false} AddedLength(cfg: Config, ops: seq<Op>, j: nat)
    requires j < |ops| && ops[j].Commit?
    ensures |AddedDeletes(cfg, ops, j)| == |ops[j].snap.equalityDeletes|
  {
  }

  // ---- listings ------------------------------------------------------------------

  /** Every file the history adds at `j` keeps its extension fields. */
  ghost predicate FilesSurvive(fmt: Format, cfg: Config, t0: Table, ops: seq<Op>, j: nat)
    requires j < |ops|
  {
    var added := AddedFiles(cfg, t0.meta.formatVersion >= 3, ops, j);
    forall i :: 0 <= i < |added| ==> Survives(fmt, Columns(Fold(cfg, t0, ops[..j]).meta), added[i])
  }

  ghost predicate AllNamed(ops: seq<Op>, lo: nat) {
    forall j :: lo <= j < |ops| && ops[j].Commit? ==> S.NamedButLast(ops[j].snap.equalityDeletes)
  }

  ghost predicate AllSurvive(fmt: Format, cfg: Config, t0: Table, ops: seq<Op>, lo: nat) {
    forall j :: lo <= j < |ops| ==> FilesSurvive(fmt, cfg, t0, ops, j)
  }

  ghost predicate InRange(fmt: Format, cfg: Config, ops: seq<Op>) {
    forall j :: 0 <= j < |ops| ==> DeletesInRange(fmt, cfg, ops, j)
  }

  lemma {:induction false} FilesSurviveExactly(fmt: Format, cfg: Config, t0: Table, ops: seq<Op>, j: nat)
    requires j < |ops| && Avro(cfg, fmt)
    ensures FilesKept(cfg, t0, ops, j) <==> FilesSurvive(fmt, cfg, t0, ops, j)
  {
    hide Fold, Columns, AddedFiles, AvroExtras, Survives, M.Faithful;
    var added, columns := AddedFiles(cfg, t0.meta.formatVersion >= 3, ops, j), Columns(Fold(cfg, t0, ops[..j]).meta);
    forall i | 0 <= i < |added|
      ensures cfg.codec.extras(columns, added[i]) == ExtrasOf(added[i]) <==> Survives(fmt, columns, added[i])
    {
      SurvivesExactly(fmt, columns, added[i]);
      assert cfg.codec.extras(columns, added[i]) == AvroExtras(fmt, columns, added[i]);
    }
  }

  /** The decoded entries from position `lo` on are the committed ones exactly when all files
      keep their extension fields, and the decoded deletes exactly when all are named. */
  lemma {:induction false} ListingOnDisk(fmt: Format, cfg: Config, t0: Table, ops: seq<Op>, lo: nat)
    requires Avro(cfg, fmt) && InRange(fmt, cfg, ops)
    ensures ListingFrom(cfg, t0, ops, lo) == FilesFrom(cfg, t0.meta.formatVersion >= 3, ops, lo) <==>
      AllSurvive(fmt, cfg, t0, ops, lo)
    ensures DeleteListingFrom(cfg, ops, lo) == Ok(DeletesFrom(cfg, ops, lo)) <==> AllNamed(ops, lo)
  {
    hide ListingFrom, FilesFrom, DeleteListingFrom, DeletesFrom, FilesKept, DeletesKept, FilesSurvive, NotMore, DeletesInRange,
         S.NamedButLast, Avro;
    forall j | lo <= j < |ops|
      ensures FilesKept(cfg, t0, ops, j) <==> FilesSurvive(fmt, cfg, t0, ops, j)
      ensures NotMore(cfg, ops, j)
      ensures DeletesKept(cfg, ops, j) <==> (ops[j].Commit? ==> S.NamedButLast(ops[j].snap.equalityDeletes))
    {
      FilesSurviveExactly(fmt, cfg, t0, ops, j);
      DeletesDecoded(fmt, cfg, ops, j);
    }
    ListingExact(cfg, t0, ops, lo);
    DeleteListingExact(cfg, t0, ops, lo);
  }

  /** The file a reader decodes for request `i` of commit `j`: path, counts and sequence number
      as asked for, and the extension fields exactly when the placed file survives. */
  lemma {:induction false} FileOnDisk(fmt: Format, cfg: Config, t0: Table, ops: seq<Op>, j: nat, i: nat)
    requires Avro(cfg, fmt) && IsNew(t0) && DistinctIds(ops) && j < |ops| && ops[j].Commit? && i < |ops[j].snap.files|
    ensures var o, p, added := Fold(cfg, t0, ops).objects, DataManifestPath(ops[j].snap.id),
                               AddedFiles(cfg, t0.meta.formatVersion >= 3, ops, j);
      var asked := Asked(ops[j].snap.files[i], CommitCount(ops[..j]) + 1);
      && p in o && o[p].DataManifest? && |o[p].files| == |ops[j].snap.files| == |added|
      && SameFile(cfg, asked, o[p].files[i])
      && (SameExtras(asked, o[p].files[i]) <==> Survives(fmt, Columns(Fold(cfg, t0, ops[..j]).meta), added[i]))
  {
    hide Fold, Columns, AddedFiles, CommitCount, IsNew, DistinctIds, Survives, AvroExtras, SameFile, SameExtras, M.Faithful;
    FileInStore(cfg, t0, ops, j, i);
    var added, columns := AddedFiles(cfg, t0.meta.formatVersion >= 3, ops, j), Columns(Fold(cfg, t0, ops[..j]).meta);
    SurvivesExactly(fmt, columns, added[i]);
    assert cfg.codec.extras(columns, added[i]) == AvroExtras(fmt, columns, added[i]);
  }

  /** One entry per file asked for by and since the last Overwrite or Replace, with its path,
      counts and sequence number; with its extension fields exactly when all survive; and the
      deletes asked for when all but the last of each commit name a field. */
  ghost predicate AskedOnDisk(
    fmt: Format, cfg: Config, t0: Table, ops: seq<Op>, files: Result<seq<DataFile>>, deletes: Result<seq<EqualityDelete>>)
  {
    var lo := LastReset(ops);
    && files.Ok? && SameFiles(cfg, AskedFrom(ops, lo), files.value)
    && (AllExtras(AskedFrom(ops, lo), files.value) <==> AllSurvive(fmt, cfg, t0, ops, lo))
    && (AllNamed(ops, lo) ==> deletes.Ok? && SameDeletes(cfg, AskedDeletesFrom(ops, lo), deletes.value))
  }

  lemma {:induction false} AsAskedOnDisk(
    fmt: Format, cfg: Config, t0: Table, ops: seq<Op>, files: Result<seq<DataFile>>, deletes: Result<seq<EqualityDelete>>)
    requires Avro(cfg, fmt) && InRange(fmt, cfg, ops)
    requires files == Ok(ListingFrom(cfg, t0, ops, LastReset(ops))) && deletes == DeleteListingFrom(cfg, ops, LastReset(ops))
    ensures AskedOnDisk(fmt, cfg, t0, ops, files, deletes)
  {
    hide LastReset, ListingFrom, DeleteListingFrom, AskedFrom, AskedDeletesFrom, FilesKept, DeletesKept, SameFiles, AllExtras,
         SameDeletes, FilesSurvive, NotMore, DeletesInRange, S.NamedButLast, Avro;
    AsAsked(cfg, t0, ops, files, deletes);
    forall j | LastReset(ops) <= j < |ops|
      ensures FilesKept(cfg, t0, ops, j) <==> FilesSurvive(fmt, cfg, t0, ops, j)
      ensures DeletesKept(cfg, ops, j) <==> (ops[j].Commit? ==> S.NamedButLast(ops[j].snap.equalityDeletes))
    {
      FilesSurviveExactly(fmt, cfg, t0, ops, j);
      DeletesDecoded(fmt, cfg, ops, j);
    }
  }

  lemma {:induction false} RangePrefix(fmt: Format, cfg: Config, ops: seq<Op>, n: nat)
    requires n <= |ops| && InRange(fmt, cfg, ops)
    ensures InRange(fmt, cfg, ops[..n])
  {
    hide S.DeletesFit, A.Writable, D.DeleteRecords, CommitCount, AddedDeletes;
    forall j | 0 <= j < n ensures DeletesInRange(fmt, cfg, ops[..n], j) {
      assert DeletesInRange(fmt, cfg, ops, j);
      assert ops[..n][..j] == ops[..j] && ops[..n][j] == ops[j];
      AddedBefore(cfg, true, ops, n, j);
    }
  }

  /** JDBC, every run: while the table exists the catalog lists the committed files exactly
      when those since the last Overwrite or Replace survive their manifests, and the
      committed deletes exactly when all but the last of each commit name a field. */
  lemma {:induction false} JdbcListsWhatWasCommitted(fmt: Format, x: JdbcSafety.Start, events: seq<JdbcProtocol.Event>)
    requires IsNew(x.t0) && Avro(x.cfg, fmt)
    requires JdbcSafety.After(x, events).pointer.Some?
    requires InRange(fmt, x.cfg, JdbcSafety.Ops(JdbcSafety.After(x, events).log))
    ensures var s := JdbcSafety.After(x, events);
      var ops := JdbcSafety.Ops(s.log);
      var lo := LastReset(ops);
      && (JdbcSafety.CatalogFiles(s, None) == Ok(FilesFrom(x.cfg, x.t0.meta.formatVersion >= 3, ops, lo)) <==>
            AllSurvive(fmt, x.cfg, x.t0, ops, lo))
      && (JdbcSafety.CatalogDeletes(s, None) == Ok(DeletesFrom(x.cfg, ops, lo)) <==> AllNamed(ops, lo))
      && AskedOnDisk(fmt, x.cfg, x.t0, ops, JdbcSafety.CatalogFiles(s, None), JdbcSafety.CatalogDeletes(s, None))
  {
    hide AskedOnDisk, IsNew, Avro, InRange, JdbcSafety.After, JdbcSafety.CatalogFiles, JdbcSafety.CatalogDeletes, ListingFrom, FilesFrom,
         DeleteListingFrom, DeletesFrom, AllSurvive, AllNamed, LastReset;
    JdbcSafety.NothingLost(x, events);
    var s := JdbcSafety.After(x, events);
    var ops := JdbcSafety.Ops(s.log);
    ListingOnDisk(fmt, x.cfg, x.t0, ops, LastReset(ops));
    AsAskedOnDisk(fmt, x.cfg, x.t0, ops, JdbcSafety.CatalogFiles(s, None), JdbcSafety.CatalogDeletes(s, None));
  }

  /** JDBC time travel: the same for the snapshot of any published commit, in terms of the
      history up to it. */
  lemma {:induction false} JdbcSnapshotsListWhatWasCommitted(
    fmt: Format, x: JdbcSafety.Start, events: seq<JdbcProtocol.Event>, j: nat)
    requires IsNew(x.t0) && Avro(x.cfg, fmt)
    requires JdbcSafety.After(x, events).pointer.Some?
    requires j < |JdbcSafety.After(x, events).log| && JdbcSafety.After(x, events).log[j].op.Commit?
    requires InRange(fmt, x.cfg, JdbcSafety.Ops(JdbcSafety.After(x, events).log))
    ensures var s := JdbcSafety.After(x, events);
      var made, id := JdbcSafety.Ops(s.log)[..j + 1], Some(s.log[j].op.snap.id);
      var lo := LastReset(made);
      && (JdbcSafety.CatalogFiles(s, id) == Ok(FilesFrom(x.cfg, x.t0.meta.formatVersion >= 3, made, lo)) <==>
            AllSurvive(fmt, x.cfg, x.t0, made, lo))
      && (JdbcSafety.CatalogDeletes(s, id) == Ok(DeletesFrom(x.cfg, made, lo)) <==> AllNamed(made, lo))
      && AskedOnDisk(fmt, x.cfg, x.t0, made, JdbcSafety.CatalogFiles(s, id), JdbcSafety.CatalogDeletes(s, id))
  {
    hide AskedOnDisk, IsNew, Avro, InRange, JdbcSafety.After, JdbcSafety.CatalogFiles, JdbcSafety.CatalogDeletes, ListingFrom, FilesFrom,
         DeleteListingFrom, DeletesFrom, AllSurvive, AllNamed, LastReset;
    JdbcSafety.ListingOf(x, events, j);
    var s := JdbcSafety.After(x, events);
    var ops, id := JdbcSafety.Ops(s.log), Some(s.log[j].op.snap.id);
    RangePrefix(fmt, x.cfg, ops, j + 1);
    ListingOnDisk(fmt, x.cfg, x.t0, ops[..j + 1], LastReset(ops[..j + 1]));
    AsAskedOnDisk(fmt, x.cfg, x.t0, ops[..j + 1], JdbcSafety.CatalogFiles(s, id), JdbcSafety.CatalogDeletes(s, id));
  }

  /** Hadoop, every run of attempts with failing puts: the same for the visible operations. */
  lemma {:induction false} HadoopListsWhatWasCommitted(fmt: Format, cfg: Config, attempts: seq<HadoopCatalog.Attempt>)
    requires Avro(cfg, fmt) && HadoopCatalog.AllAllowed(cfg, attempts) && HadoopCatalog.ViewAfter(cfg, attempts).Present?
    requires InRange(fmt, cfg, HadoopCatalog.ViewAfter(cfg, attempts).ops)
    ensures var o, v := HadoopCatalog.RunAttempts(cfg, attempts), HadoopCatalog.ViewAfter(cfg, attempts);
      var lo := LastReset(v.ops);
      && HadoopCatalog.Load(o).Some?
      && var meta := HadoopCatalog.Load(o).value;
      && (ListFiles(o, meta, None) == Ok(FilesFrom(cfg, v.t0.meta.formatVersion >= 3, v.ops, lo)) <==>
            AllSurvive(fmt, cfg, v.t0, v.ops, lo))
      && (ListDeletes(o, meta, None) == Ok(DeletesFrom(cfg, v.ops, lo)) <==> AllNamed(v.ops, lo))
      && AskedOnDisk(fmt, cfg, v.t0, v.ops, ListFiles(o, meta, None), ListDeletes(o, meta, None))
  {
    hide AskedOnDisk, Avro, InRange, HadoopCatalog.AllAllowed, HadoopCatalog.RunAttempts, HadoopCatalog.ViewAfter, HadoopCatalog.Load,
         ListFiles, ListDeletes, ListingFrom, FilesFrom, DeleteListingFrom, DeletesFrom, AllSurvive, AllNamed, LastReset, Fold;
    HadoopCatalog.CrashAtomic(cfg, attempts);
    var o, v := HadoopCatalog.RunAttempts(cfg, attempts), HadoopCatalog.ViewAfter(cfg, attempts);
    ListingOnDisk(fmt, cfg, v.t0, v.ops, LastReset(v.ops));
    var meta := HadoopCatalog.Load(o).value;
    AsAskedOnDisk(fmt, cfg, v.t0, v.ops, ListFiles(o, meta, None), ListDeletes(o, meta, None));
  }

  /** And for the snapshot of any visible commit. */
  lemma {:induction false} HadoopSnapshotsListWhatWasCommitted(
    fmt: Format, cfg: Config, attempts: seq<HadoopCatalog.Attempt>, j: nat)
    requires Avro(cfg, fmt) && HadoopCatalog.AllAllowed(cfg, attempts) && HadoopCatalog.ViewAfter(cfg, attempts).Present?
    requires j < |HadoopCatalog.ViewAfter(cfg, attempts).ops| && HadoopCatalog.ViewAfter(cfg, attempts).ops[j].Commit?
    requires InRange(fmt, cfg, HadoopCatalog.ViewAfter(cfg, attempts).ops)
    ensures var o, v := HadoopCatalog.RunAttempts(cfg, attempts), HadoopCatalog.ViewAfter(cfg, attempts);
      var made, id := v.ops[..j + 1], Some(v.ops[j].snap.id);
      var lo := LastReset(made);
      && HadoopCatalog.Load(o).Some?
      && var meta := HadoopCatalog.Load(o).value;
      && (ListFiles(o, meta, id) == Ok(FilesFrom(cfg, v.t0.meta.formatVersion >= 3, made, lo)) <==>
            AllSurvive(fmt, cfg, v.t0, made, lo))
      && (ListDeletes(o, meta, id) == Ok(DeletesFrom(cfg, made, lo)) <==> AllNamed(made, lo))
      && AskedOnDisk(fmt, cfg, v.t0, made, ListFiles(o, meta, id), ListDeletes(o, meta, id))
  {
    hide AskedOnDisk, Avro, InRange, HadoopCatalog.AllAllowed, HadoopCatalog.RunAttempts, HadoopCatalog.ViewAfter, HadoopCatalog.Load,
         ListFiles, ListDeletes, ListingFrom, FilesFrom, DeleteListingFrom, DeletesFrom, AllSurvive, AllNamed, LastReset, Fold;
    HadoopCatalog.CrashAtomicTimeTravel(cfg, attempts, j);
    var o, v := HadoopCatalog.RunAttempts(cfg, attempts), HadoopCatalog.ViewAfter(cfg, attempts);
    RangePrefix(fmt, cfg, v.ops, j + 1);
    ListingOnDisk(fmt, cfg, v.t0, v.ops[..j + 1], LastReset(v.ops[..j + 1]));
    var meta, id := HadoopCatalog.Load(o).value, Some(v.ops[j].snap.id);
    AsAskedOnDisk(fmt, cfg, v.t0, v.ops[..j + 1], ListFiles(o, meta, id), ListDeletes(o, meta, id));
  }
}
