/** What a history records in `metadata.json` and in the files beside its manifests: the snapshot
    records, the properties, the statistics files and the manifest headers. */
module MetadataHistory {
  import opened Wrappers
  import opened TableModel
  import opened CommitSpec
  import opened CommitHistory
  import opened CommittedEntries
  import JdbcProtocol
  import JdbcSafety
  import HadoopCatalog

  const NAME_MAPPING := "schema.name-mapping.default"

  // ---- snapshots -----------------------------------------------------------------

  /** The record of a commit: its id, parent, operation and number of files as requested, the
      clock reading, and the commit's rank. */
  ghost predicate RecordOf(s: Snapshot, snap: NewSnapshot, env: Env, rank: nat) {
    && s.id == snap.id && s.parent == snap.parent && s.operation == snap.operation && s.addedFiles == |snap.files|
    && s.timestampMs == env.now && s.sequenceNumber == rank && s.schemaId == 0
    && s.manifestList == ManifestListPath(snap.id)
  }

  lemma {:induction false} SnapshotRecorded(cfg: Config, t0: Table, ops: seq<Op>, j: nat)
    requires IsNew(t0) && DistinctIds(ops) && j < |ops| && ops[j].Commit?
    ensures var s := FindSnapshot(Fold(cfg, t0, ops).meta.snapshots, ops[j].snap.id);
      s.Some? && RecordOf(s.value, ops[j].snap, ops[j].env, CommitCount(ops[..j]) + 1)
  {
    hide Fold, FindSnapshot, CommitCount, DistinctIds, IsNew;
    SnapshotOfCommit(cfg, t0, ops, j);
    FoldCounts(cfg, t0, ops[..j]);
  }

  function LastCommit(ops: seq<Op>): Option<SnapshotId> {
    if ops == [] then None
    else if ops[|ops| - 1].Commit? then Some(ops[|ops| - 1].snap.id)
    else LastCommit(ops[..|ops| - 1])
  }

  // ---- properties, clock, statistics ---------------------------------------------

  /** Evolutions take effect exactly when the current schema is in the list. */
  ghost predicate Evolves(meta: Metadata) {
    exists s :: s in meta.schemas && s.id == meta.currentSchemaId
  }

  /** The value an operation gives to a property. */
  function SetBy(evolves: bool, op: Op, key: string): Option<string> {
    match op
    case Commit(snap, _) =>
      if key in snap.properties then Some(snap.properties[key])
      else if snap.schemaUpdate.Some? && key == NAME_MAPPING then Some(snap.schemaUpdate.value.nameMapping)
      else None
    case Evolve(e, _) => if evolves && key in e.properties then Some(e.properties[key]) else None
  }

  function Lookup(m: map<string, string>, key: string): Option<string> {
    if key in m then Some(m[key]) else None
  }

  /** The last operation that sets a property decides its value. */
  function PropertyAfter(initial: map<string, string>, evolves: bool, ops: seq<Op>, key: string): Option<string> {
    if ops == [] then Lookup(initial, key)
    else
      var last := SetBy(evolves, ops[|ops| - 1], key);
      if last.Some? then last else PropertyAfter(initial, evolves, ops[..|ops| - 1], key)
  }

  function ClockAfter(initial: int, evolves: bool, ops: seq<Op>): int {
    if ops == [] then initial
    else match ops[|ops| - 1]
      case Commit(_, env) => env.now
      case Evolve(_, now) => if evolves then now else ClockAfter(initial, evolves, ops[..|ops| - 1])
  }

  predicate HasVectors(files: seq<DataFile>) {
    exists i :: 0 <= i < |files| && files[i].vectorStats.Some?
  }

  /** A Puffin file per commit with vector statistics whose file could be stored, V3 only. */
  function PuffinRefs(v3: bool, ops: seq<Op>): seq<StatsRef> {
    if ops == [] then []
    else
      var last := ops[|ops| - 1];
      PuffinRefs(v3, ops[..|ops| - 1])
      + (if v3 && last.Commit? && last.env.puffinStored && HasVectors(last.snap.files)
         then [StatsRef(last.snap.id, PuffinPath(last.snap.id))] else [])
  }

  /** A partition statistics file per commit of a partitioned table. */
  function PartitionStatsRefs(partitioned: bool, ops: seq<Op>): seq<StatsRef> {
    if ops == [] then []
    else
      var last := ops[|ops| - 1];
      PartitionStatsRefs(partitioned, ops[..|ops| - 1])
      + (if partitioned && last.Commit? && last.env.partitionStatsStored
         then [StatsRef(last.snap.id, PartitionStatsPath(last.snap.id))] else [])
  }

  /** The default spec is in the list and its first occurrence has fields. */
  ghost predicate Partitioned(meta: Metadata) {
    exists k ::
      && 0 <= k < |meta.partitionSpecs| && meta.partitionSpecs[k].id == meta.defaultSpecId
      && meta.partitionSpecs[k].fields != []
      && forall l :: 0 <= l < k ==> meta.partitionSpecs[l].id != meta.defaultSpecId
  }

  lemma {:induction false} FirstSpec(specs: seq<Spec>, id: int)
    ensures FindSpec(specs, id).Some? ==>
      exists k ::
        && 0 <= k < |specs| && specs[k].id == id && specs[k] == FindSpec(specs, id).value
        && forall l :: 0 <= l < k ==> specs[l].id != id
  {
    if specs != [] {
      if specs[0].id == id {
        assert specs[0] == FindSpec(specs, id).value;
      } else if FindSpec(specs, id).Some? {
        FirstSpec(specs[1..], id);
        var k :| 0 <= k < |specs[1..]| && specs[1..][k].id == id && specs[1..][k] == FindSpec(specs[1..], id).value
          && forall l :: 0 <= l < k ==> specs[1..][l].id != id;
        assert specs[k + 1] == specs[1..][k];
        forall l | 0 <= l < k + 1 ensures specs[l].id != id {
          assert l > 0 ==> specs[l] == specs[1..][l - 1];
        }
      }
    }
  }

  lemma {:induction false} PartitionedExactly(meta: Metadata)
    ensures WantsPartitionStats(meta) <==> Partitioned(meta)
  {
    hide FindSpec;
    FirstSpec(meta.partitionSpecs, meta.defaultSpecId);
  }

  lemma {:induction false} PlacedVectors(cfg: Config, v3: bool, files: seq<DataFile>, next: int, number: nat)
    ensures VectorStatsOf(PlaceFiles(cfg, v3, files, next, number)) != [] <==> HasVectors(files)
  {
    hide PlaceFiles, VectorStatsOf, SameFile;
    var placed := PlaceFiles(cfg, v3, files, next, number);
    PlacedLength(cfg, v3, files, next, number);
    forall i | 0 <= i < |files| ensures placed[i].vectorStats == files[i].vectorStats {
      PlacedAsAsked(cfg, v3, files, next, number, i);
    }
    SomeVectors(placed);
    assert HasVectors(placed) <==> HasVectors(files);
  }

  lemma {:induction false} SomeVectors(files: seq<DataFile>)
    ensures VectorStatsOf(files) != [] <==> HasVectors(files)
  {
    if files != [] {
      SomeVectors(files[1..]);
      assert forall i :: 0 < i < |files| ==> files[i] == files[1..][i - 1];
    }
  }

  /** What a history leaves in the metadata besides schemas and snapshot records. */
  ghost predicate Bookkeeping(t0: Table, ops: seq<Op>, m: Metadata) {
    var evolves := Evolves(t0.meta);
    && (forall key :: Lookup(m.properties, key) == PropertyAfter(t0.meta.properties, evolves, ops, key))
    && m.lastUpdatedMs == ClockAfter(t0.meta.lastUpdatedMs, evolves, ops)
    && m.currentSnapshotId == LastCommit(ops)
    && m.lastSequenceNumber == CommitCount(ops)
    && m.statistics == t0.meta.statistics + PuffinRefs(t0.meta.formatVersion >= 3, ops)
    && m.partitionStatistics == t0.meta.partitionStatistics + PartitionStatsRefs(Partitioned(t0.meta), ops)
  }

  /** What decides about later operations does not change. */
  ghost predicate SameKind(t0: Table, m: Metadata) {
    && m.formatVersion == t0.meta.formatVersion
    && (Evolves(m) <==> Evolves(t0.meta)) && (Partitioned(m) <==> Partitioned(t0.meta))
  }

  lemma {:induction false} SpecsKeepShape(m: Metadata, update: SchemaUpdate)
    ensures Partitioned(PatchSchema(m, update)) <==> Partitioned(m)
    ensures Evolves(PatchSchema(m, update)) <==> Evolves(m)
  {
    hide RemapField;
    var n := PatchSchema(m, update);
    assert |n.partitionSpecs| == |m.partitionSpecs| && |n.schemas| == |m.schemas|;
    assert forall k :: 0 <= k < |m.partitionSpecs| ==>
      n.partitionSpecs[k].id == m.partitionSpecs[k].id && |n.partitionSpecs[k].fields| == |m.partitionSpecs[k].fields|;
    assert forall k :: 0 <= k < |m.schemas| ==> n.schemas[k].id == m.schemas[k].id;
    SameSchemaIds(m.schemas, n.schemas, m.currentSchemaId);
    SameSchemaIds(n.schemas, m.schemas, m.currentSchemaId);
  }

  lemma {:induction false} SameSchemaIds(a: seq<Schema>, b: seq<Schema>, id: int)
    requires |a| == |b| && forall k :: 0 <= k < |a| ==> a[k].id == b[k].id
    ensures (exists s :: s in a && s.id == id) ==> exists s :: s in b && s.id == id
  {
    if s :| s in a && s.id == id {
      var k :| 0 <= k < |a| && a[k] == s;
      assert b[k] in b && b[k].id == id;
    }
  }

  lemma {:induction false} CommitKeepsKind(cfg: Config, t0: Table, m: Metadata, snap: NewSnapshot, env: Env)
    requires SameKind(t0, m)
    ensures SameKind(t0, CommittedMetadata(cfg, m, snap, env))
  {
    hide RemapSpecs, FreshRows, PuffinRef, PartitionStatsRef, NewSnapshotRecord;
    if snap.schemaUpdate.Some? {
      var m1 := Advanced(m, NewSnapshotRecord(m, snap, env.now), m.lastSequenceNumber + 1, NextRowId(m, snap), env.now);
      SpecsKeepShape(m1, snap.schemaUpdate.value);
    }
  }

  lemma {:induction false} EvolveKeepsKind(t0: Table, m: Metadata, e: Evolution, now: int)
    requires SameKind(t0, m)
    ensures EvolvedMetadata(m, e, now).Ok? <==> Evolves(t0.meta)
    ensures EvolvedMetadata(m, e, now).Ok? ==> SameKind(t0, EvolvedMetadata(m, e, now).value)
  {
    hide ApplyRenames, AddedFields, FindSchema;
    var r := EvolvedMetadata(m, e, now);
    if r.Ok? {
      var n := r.value;
      assert n.schemas[|m.schemas|] in n.schemas && n.schemas[|m.schemas|].id == n.currentSchemaId;
    }
  }

  lemma {:induction false} PuffinRecorded(cfg: Config, m: Metadata, snap: NewSnapshot, env: Env)
    requires m.lastSequenceNumber >= 0
    ensures PuffinRef(cfg, m, snap, env) ==
      if m.formatVersion >= 3 && env.puffinStored && HasVectors(snap.files) then Some(StatsRef(snap.id, PuffinPath(snap.id)))
      else None
  {
    hide PlaceFiles, VectorStatsOf, HasVectors;
    PlacedVectors(cfg, m.formatVersion >= 3, snap.files, m.nextRowId, m.lastSequenceNumber + 1);
  }

  lemma {:induction false} StatisticsAppended(cfg: Config, m: Metadata, snap: NewSnapshot, env: Env)
    ensures var n, puffin, partition := CommittedMetadata(cfg, m, snap, env), PuffinRef(cfg, m, snap, env), PartitionStatsRef(m, snap, env);
      && n.statistics == m.statistics + (if puffin.Some? then [puffin.value] else [])
      && n.partitionStatistics == m.partitionStatistics + (if partition.Some? then [partition.value] else [])
  {
    hide RemapSpecs, FreshRows, NewSnapshotRecord, PuffinRef, PartitionStatsRef;
    assert m.statistics + [] == m.statistics && m.partitionStatistics + [] == m.partitionStatistics;
  }

  lemma {:induction false} StatisticsRecorded(cfg: Config, t0: Table, ops: seq<Op>, m: Metadata, snap: NewSnapshot, env: Env)
    requires SameKind(t0, m) && Bookkeeping(t0, ops, m) && m.lastSequenceNumber >= 0
    ensures var after, n := ops + [Commit(snap, env)], CommittedMetadata(cfg, m, snap, env);
      && n.statistics == t0.meta.statistics + PuffinRefs(t0.meta.formatVersion >= 3, after)
      && n.partitionStatistics == t0.meta.partitionStatistics + PartitionStatsRefs(Partitioned(t0.meta), after)
  {
    hide CommittedMetadata, PuffinRef, Evolves, Partitioned, HasVectors, WantsPartitionStats, PropertyAfter, ClockAfter,
         LastCommit, CommitCount;
    var after := ops + [Commit(snap, env)];
    assert after[..|after| - 1] == ops && after[|after| - 1] == Commit(snap, env);
    PuffinRecorded(cfg, m, snap, env);
    PartitionedExactly(m);
    StatisticsAppended(cfg, m, snap, env);
  }

  lemma {:induction false} CommitProperties(cfg: Config, m: Metadata, snap: NewSnapshot, env: Env, key: string)
    ensures var given := SetBy(true, Commit(snap, env), key);
      Lookup(CommittedMetadata(cfg, m, snap, env).properties, key) == if given.Some? then given else Lookup(m.properties, key)
  {
    hide RemapSpecs, FreshRows, NewSnapshotRecord, PuffinRef, PartitionStatsRef;
  }

  lemma {:induction false} CommitRecords(cfg: Config, t0: Table, ops: seq<Op>, m: Metadata, snap: NewSnapshot, env: Env)
    requires SameKind(t0, m) && Bookkeeping(t0, ops, m) && m.lastSequenceNumber >= 0
    ensures Bookkeeping(t0, ops + [Commit(snap, env)], CommittedMetadata(cfg, m, snap, env))
  {
    hide RemapSpecs, FreshRows, PuffinRef, PartitionStatsRef, Evolves, Partitioned, Lookup, SameKind;
    var after, n := ops + [Commit(snap, env)], CommittedMetadata(cfg, m, snap, env);
    assert after[..|after| - 1] == ops && after[|after| - 1] == Commit(snap, env);
    StatisticsRecorded(cfg, t0, ops, m, snap, env);
    hide PuffinRefs, PartitionStatsRefs;
    var evolves := Evolves(t0.meta);
    forall key ensures Lookup(n.properties, key) == PropertyAfter(t0.meta.properties, evolves, after, key) {
      CommitProperties(cfg, m, snap, env, key);
      assert Lookup(m.properties, key) == PropertyAfter(t0.meta.properties, evolves, ops, key);
      assert SetBy(evolves, Commit(snap, env), key) == SetBy(true, Commit(snap, env), key);
    }
  }

  lemma {:induction false} EvolveRecords(t0: Table, ops: seq<Op>, m: Metadata, e: Evolution, now: int)
    requires SameKind(t0, m) && Bookkeeping(t0, ops, m)
    ensures var r := EvolvedMetadata(m, e, now);
      Bookkeeping(t0, ops + [Evolve(e, now)], if r.Ok? then r.value else m)
  {
    hide ApplyRenames, AddedFields, FindSchema, SameKind, Evolves, Partitioned;
    var after := ops + [Evolve(e, now)];
    assert after[..|after| - 1] == ops && after[|after| - 1] == Evolve(e, now);
    EvolveKeepsKind(t0, m, e, now);
    var r, evolves := EvolvedMetadata(m, e, now), Evolves(t0.meta);
    var n := if r.Ok? then r.value else m;
    assert PuffinRefs(t0.meta.formatVersion >= 3, after) == PuffinRefs(t0.meta.formatVersion >= 3, ops) + [];
    assert PartitionStatsRefs(Partitioned(t0.meta), after) == PartitionStatsRefs(Partitioned(t0.meta), ops) + [];
    forall key ensures Lookup(n.properties, key) == PropertyAfter(t0.meta.properties, evolves, after, key) {
      assert Lookup(m.properties, key) == PropertyAfter(t0.meta.properties, evolves, ops, key);
    }
  }

  /** Every history: each property has the value last given to it, the statistics files listed
      are those of the commits that wrote one, and clock, current snapshot and sequence number
      are those of the last operations. */
  lemma {:induction false} HistoryRecorded(cfg: Config, t0: Table, ops: seq<Op>)
    requires IsNew(t0)
    ensures SameKind(t0, Fold(cfg, t0, ops).meta) && Bookkeeping(t0, ops, Fold(cfg, t0, ops).meta)
    decreases |ops|
  {
    if ops == [] {
      var m := t0.meta;
      assert m.statistics + [] == m.statistics && m.partitionStatistics + [] == m.partitionStatistics;
    } else {
      hide Bookkeeping, SameKind, CommittedMetadata, EvolvedMetadata, CommitObjects, IsNew;
      var last := |ops| - 1;
      HistoryRecorded(cfg, t0, ops[..last]);
      FoldCounts(cfg, t0, ops[..last]);
      var m := Fold(cfg, t0, ops[..last]).meta;
      assert ops == ops[..last] + [ops[last]];
      match ops[last] {
        case Commit(snap, env) =>
          CommitRecords(cfg, t0, ops[..last], m, snap, env);
          CommitKeepsKind(cfg, t0, m, snap, env);
        case Evolve(e, now) =>
          EvolveRecords(t0, ops[..last], m, e, now);
          EvolveKeepsKind(t0, m, e, now);
      }
    }
  }

  // ---- the files beside the manifests --------------------------------------------

  /** `stats` are the statistics of the files at positions `at`, with their stored paths: all
      files that have any, in request order. */
  ghost predicate VectorsOf(cfg: Config, files: seq<DataFile>, at: seq<nat>, stats: seq<(Text, VectorStats)>) {
    && |at| == |stats|
    && (forall k, l :: 0 <= k < l < |at| ==> at[k] < at[l])
    && (forall k :: 0 <= k < |at| ==>
          && at[k] < |files| && files[at[k]].vectorStats == Some(stats[k].1)
          && FilePath(cfg.warehouse, files[at[k]].path, stats[k].0))
    && (forall i :: 0 <= i < |files| && files[i].vectorStats.Some? ==> i in at)
  }

  function Positions(files: seq<DataFile>): (at: seq<nat>)
    ensures forall k, l :: 0 <= k < l < |at| ==> at[k] < at[l]
    ensures forall k :: 0 <= k < |at| ==> at[k] < |files| && files[at[k]].vectorStats.Some?
    ensures forall i :: 0 <= i < |files| && files[i].vectorStats.Some? ==> i in at
  {
    if files == [] then []
    else
      var n := |files| - 1;
      Positions(files[..n]) + (if files[n].vectorStats.Some? then [n] else [])
  }

  lemma {:induction false} VectorStatsConcat(a: seq<DataFile>, b: seq<DataFile>)
    ensures VectorStatsOf(a + b) == VectorStatsOf(a) + VectorStatsOf(b)
  {
    if a == [] {
      assert a + b == b;
    } else {
      assert (a + b)[1..] == a[1..] + b;
      VectorStatsConcat(a[1..], b);
    }
  }

  lemma {:induction false} VectorStatsAt(files: seq<DataFile>)
    ensures var at, stats := Positions(files), VectorStatsOf(files);
      |at| == |stats| && forall k :: 0 <= k < |at| ==> stats[k] == (files[at[k]].path, files[at[k]].vectorStats.value)
  {
    if files != [] {
      var n := |files| - 1;
      VectorStatsAt(files[..n]);
      VectorStatsConcat(files[..n], files[n..]);
      assert files == files[..n] + files[n..] && files[n..] == [files[n]] && files[n..][1..] == [];
    }
  }

  lemma {:induction false} PuffinHolds(cfg: Config, v3: bool, files: seq<DataFile>, next: int, number: nat)
    ensures var placed := PlaceFiles(cfg, v3, files, next, number);
      VectorsOf(cfg, files, Positions(placed), VectorStatsOf(placed))
  {
    hide PlaceFiles, VectorStatsOf, Positions, FilePath;
    var placed := PlaceFiles(cfg, v3, files, next, number);
    PlacedLength(cfg, v3, files, next, number);
    VectorStatsAt(placed);
    forall i | 0 <= i < |files|
      ensures FilePath(cfg.warehouse, files[i].path, placed[i].path) && placed[i].vectorStats == files[i].vectorStats
    {
      PlacedAsAsked(cfg, v3, files, next, number, i);
    }
  }

  /** What commit `j` puts beside its manifests. */
  lemma {:induction false} StatisticsWritten(cfg: Config, t0: Table, ops: seq<Op>, j: nat)
    requires j < |ops| && ops[j].Commit?
    ensures var t, snap, env := Fold(cfg, t0, ops[..j]), ops[j].snap, ops[j].env;
      var o := Fold(cfg, t0, ops[..j + 1]).objects;
      && (WantsPuffin(cfg, t.meta, snap) && env.puffinStored ==>
            PuffinPath(snap.id) in o && o[PuffinPath(snap.id)] == PuffinOf(cfg, t.meta, snap))
      && (WantsPartitionStats(t.meta) && env.partitionStatsStored ==>
            && PartitionStatsPath(snap.id) in o
            && o[PartitionStatsPath(snap.id)] ==
                 PartitionStatsOf(CommitManifests(cfg, t, snap, env), t.meta,
                                  ManifestsOf(Inherited(t.objects, t.meta, snap.operation), snap)))
      && (forall p: Path :: p.DataManifestPath? || p.DeleteManifestPath? ==>
            && (p in o <==> p in CommitManifests(cfg, t, snap, env))
            && (p in o ==> o[p] == CommitManifests(cfg, t, snap, env)[p]))
  {
    hide WantsPuffin, PuffinOf, PartitionStatsOf, WantsPartitionStats, DataManifestOf, DeleteManifestOf, Inherited, ManifestsOf,
         CommittedMetadata;
    var upTo, t := ops[..j + 1], Fold(cfg, t0, ops[..j]);
    assert upTo[..j] == ops[..j] && upTo[j] == ops[j];
    assert Fold(cfg, t0, upTo) == CommitTable(cfg, t, ops[j].snap, ops[j].env);
    hide Fold;
  }

  /** The Puffin file of commit `j` holds the vector statistics of exactly its files that have
      any, under their stored paths, and the Bloom filters handed in. */
  lemma {:induction false} PuffinInStore(cfg: Config, t0: Table, ops: seq<Op>, j: nat)
    requires IsNew(t0) && DistinctIds(ops) && j < |ops| && ops[j].Commit?
    requires t0.meta.formatVersion >= 3 && ops[j].env.puffinStored && HasVectors(ops[j].snap.files)
    ensures var o, p := Fold(cfg, t0, ops).objects, PuffinPath(ops[j].snap.id);
      && p in o && o[p].Puffin? && o[p].blooms == ops[j].snap.blooms
      && exists at :: VectorsOf(cfg, ops[j].snap.files, at, o[p].stats)
  {
    hide Fold, PlaceFiles, VectorStatsOf, VectorsOf, HasVectors, IsNew, DistinctIds, CommitCount, FreshTotal, CommitManifests;
    var meta, snap := Fold(cfg, t0, ops[..j]).meta, ops[j].snap;
    FoldCounts(cfg, t0, ops[..j]);
    PlacedVectors(cfg, true, snap.files, meta.nextRowId, meta.lastSequenceNumber + 1);
    PuffinHolds(cfg, true, snap.files, meta.nextRowId, meta.lastSequenceNumber + 1);
    StatisticsWritten(cfg, t0, ops, j);
    FoldGrows(cfg, t0, ops, j + 1);
  }

  lemma {:induction false} EntriesAreRead(o: Objects, manifests: seq<ManifestRef>)
    requires ReadDataManifests(o, manifests).Ok?
    ensures DataEntries(o, manifests) == ReadDataManifests(o, manifests).value
  {
    if manifests != [] {
      EntriesAreRead(o, manifests[1..]);
    }
  }

  lemma {:induction false} RefsAreManifests(ops: seq<Op>, lo: nat)
    ensures forall m :: m in RefsFrom(ops, lo) ==> m.path.DataManifestPath? || m.path.DeleteManifestPath?
    decreases |ops|
  {
    if lo < |ops| {
      RefsAreManifests(ops[..|ops| - 1], lo);
    }
  }

  /** The manifests of the commit's own list, read in the store of the whole commit. */
  lemma {:induction false} OwnList(cfg: Config, t0: Table, ops: seq<Op>, j: nat)
    requires IsNew(t0) && DistinctIds(ops) && j < |ops| && ops[j].Commit?
    ensures var t, snap, made := Fold(cfg, t0, ops[..j]), ops[j].snap, ops[..j + 1];
      ManifestsOf(Inherited(t.objects, t.meta, snap.operation), snap) == RefsFrom(made, LastReset(made))
    ensures var made := ops[..j + 1];
      var o := Fold(cfg, t0, made).objects;
      && ReadDataManifests(o, RefsFrom(made, LastReset(made))) == Ok(ListingFrom(cfg, t0, made, LastReset(made)))
      && forall m :: m in RefsFrom(made, LastReset(made)) ==> m.path in o
  {
    hide CommitTable, RefsFrom, LastReset, ListingFrom, DeleteListingFrom, ManifestsOf, Inherited, DistinctIds, IsNew, ReadDataManifests;
    var made, t := ops[..j + 1], Fold(cfg, t0, ops[..j]);
    assert made[..j] == ops[..j] && made[j] == ops[j] && made[..j + 1] == made;
    assert Fold(cfg, t0, made) == CommitTable(cfg, t, ops[j].snap, ops[j].env);
    hide Fold;
    DistinctPrefix(ops, j + 1);
    ListOfCommit(cfg, t0, ops, j);
    CommitFacts(cfg, t, ops[j].snap, ops[j].env);
    ReadRefs(cfg, t0, made, j + 1, LastReset(made));
    RefsStored(cfg, t0, made, j + 1, LastReset(made));
  }

  /** The partition statistics of commit `j` are computed from exactly the entries its snapshot
      lists, under the partition columns the commit was built on. */
  lemma {:induction false} PartitionStatsInStore(cfg: Config, t0: Table, ops: seq<Op>, j: nat)
    requires IsNew(t0) && DistinctIds(ops) && j < |ops| && ops[j].Commit?
    requires Partitioned(t0.meta) && ops[j].env.partitionStatsStored
    ensures var t, p, id := Fold(cfg, t0, ops), PartitionStatsPath(ops[j].snap.id), Some(ops[j].snap.id);
      && p in t.objects && t.objects[p].PartitionStats?
      && ListFiles(t.objects, t.meta, id) == Ok(t.objects[p].entries)
      && Some(t.objects[p].spec) == ResolvePartitionSpec(Fold(cfg, t0, ops[..j]).meta)
  {
    hide Fold, ListFiles, ListDeletes, ListingFrom, DeleteListingFrom, RefsFrom, LastReset, ManifestsOf, Inherited, DataEntries,
         ReadDataManifests, CommitManifests, ResolvePartitionSpec, Partitioned, Bookkeeping, IsNew, DistinctIds, Evolves, PuffinOf;
    var made, before := ops[..j + 1], Fold(cfg, t0, ops[..j]);
    HistoryRecorded(cfg, t0, ops[..j]);
    PartitionedExactly(before.meta);
    StatisticsWritten(cfg, t0, ops, j);
    OwnList(cfg, t0, ops, j);
    RefsAreManifests(made, LastReset(made));
    var refs, o := RefsFrom(made, LastReset(made)), CommitManifests(cfg, before, ops[j].snap, ops[j].env);
    SameEntries(o, Fold(cfg, t0, made).objects, refs);
    EntriesAreRead(Fold(cfg, t0, made).objects, refs);
    SnapshotListing(cfg, t0, ops, j);
    FoldGrows(cfg, t0, ops, j + 1);
  }

  /** The header of commit `j`'s data manifest names the schema, the specs and the version the
      commit was built on. */
  lemma {:induction false} HeaderInStore(cfg: Config, t0: Table, ops: seq<Op>, j: nat)
    requires IsNew(t0) && DistinctIds(ops) && j < |ops| && ops[j].Commit?
    ensures var o, p, meta := Fold(cfg, t0, ops).objects, DataManifestPath(ops[j].snap.id), Fold(cfg, t0, ops[..j]).meta;
      && p in o && o[p].DataManifest?
      && o[p].header.formatVersion == t0.meta.formatVersion && o[p].header.specs == meta.partitionSpecs
      && o[p].header.schema.fields == CurrentFields(meta)
      && (Evolves(t0.meta) ==> o[p].header.schema.id == meta.currentSchemaId)
  {
    hide Fold, FindSchema, CommittedFiles, DecodedFiles, Columns, Bookkeeping, IsNew, DistinctIds, Partitioned;
    FoldCounts(cfg, t0, ops[..j]);
    HistoryRecorded(cfg, t0, ops[..j]);
    ManifestsWritten(cfg, t0, ops, j);
    FoldGrows(cfg, t0, ops, j + 1);
  }

  // ---- what a catalog loads ------------------------------------------------------

  /** The loaded metadata has the record of every commit, and the rest of the history. */
  ghost predicate Loads(t0: Table, ops: seq<Op>, m: Metadata) {
    && Bookkeeping(t0, ops, m)
    && forall j :: 0 <= j < |ops| && ops[j].Commit? ==>
         var s := FindSnapshot(m.snapshots, ops[j].snap.id);
         s.Some? && RecordOf(s.value, ops[j].snap, ops[j].env, CommitCount(ops[..j]) + 1)
  }

  lemma {:induction false} HistoryLoads(cfg: Config, t0: Table, ops: seq<Op>)
    requires IsNew(t0) && DistinctIds(ops)
    ensures Loads(t0, ops, Fold(cfg, t0, ops).meta)
  {
    hide Fold, Bookkeeping, SameKind, RecordOf, FindSnapshot, CommitCount, IsNew, DistinctIds;
    HistoryRecorded(cfg, t0, ops);
    forall j | 0 <= j < |ops| && ops[j].Commit?
      ensures var s := FindSnapshot(Fold(cfg, t0, ops).meta.snapshots, ops[j].snap.id);
        s.Some? && RecordOf(s.value, ops[j].snap, ops[j].env, CommitCount(ops[..j]) + 1)
    {
      SnapshotRecorded(cfg, t0, ops, j);
    }
  }

  /** JDBC, every run: while the table exists. */
  lemma {:induction false} JdbcLoads(x: JdbcSafety.Start, events: seq<JdbcProtocol.Event>)
    requires IsNew(x.t0) && JdbcSafety.After(x, events).pointer.Some?
    ensures var s := JdbcSafety.After(x, events);
      && JdbcSafety.CurrentMetadata(s).Some?
      && Loads(x.t0, JdbcSafety.Ops(s.log), JdbcSafety.CurrentMetadata(s).value)
  {
    hide Fold, Loads, IsNew, DistinctIds, JdbcSafety.After, JdbcSafety.CurrentMetadata, JdbcSafety.Acknowledged;
    JdbcSafety.Linearised(x, events);
    HistoryLoads(x.cfg, x.t0, JdbcSafety.Ops(JdbcSafety.After(x, events).log));
  }

  /** Hadoop, every run of attempts: the same for the visible operations. */
  lemma {:induction false} HadoopLoads(cfg: Config, attempts: seq<HadoopCatalog.Attempt>)
    requires HadoopCatalog.AllAllowed(cfg, attempts) && HadoopCatalog.ViewAfter(cfg, attempts).Present?
    ensures var o, v := HadoopCatalog.RunAttempts(cfg, attempts), HadoopCatalog.ViewAfter(cfg, attempts);
      HadoopCatalog.Load(o).Some? && Loads(v.t0, v.ops, HadoopCatalog.Load(o).value)
  {
    hide Fold, Loads, IsNew, DistinctIds, HadoopCatalog.AllAllowed, HadoopCatalog.RunAttempts, HadoopCatalog.ViewAfter,
         HadoopCatalog.Load, ListFiles, ListDeletes, ListingFrom, DeleteListingFrom, LastReset;
    HadoopCatalog.CrashAtomic(cfg, attempts);
    HadoopCatalog.RunShows(cfg, attempts);
    var v := HadoopCatalog.ViewAfter(cfg, attempts);
    HistoryLoads(cfg, v.t0, v.ops);
  }
}
