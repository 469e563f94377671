/** What every history of commits and schema evolutions leaves behind: the listing of any
    snapshot, sequence numbers and equality-delete masking, and row-id allocation. */
module CommitHistory {
  import opened Wrappers
  import opened TableModel
  import opened CommitSpec

  // ---- histories -----------------------------------------------------------------

  /** A table on which nothing has been committed yet. */
  ghost predicate IsNew(t: Table) {
    && t.objects == map[]
    && t.meta.snapshots == []
    && t.meta.currentSnapshotId == None
    && t.meta.lastSequenceNumber == 0
    && t.meta.nextRowId == 0
  }

  ghost predicate Unused(ops: seq<Op>, id: SnapshotId) {
    forall i :: 0 <= i < |ops| && ops[i].Commit? ==> ops[i].snap.id != id
  }

  /** No two commits of the history share a snapshot id. */
  ghost predicate DistinctIds(ops: seq<Op>) {
    forall i, j :: 0 <= i < j < |ops| && ops[i].Commit? && ops[j].Commit? ==> ops[i].snap.id != ops[j].snap.id
  }

  function CommitCount(ops: seq<Op>): nat {
    if ops == [] then 0
    else CommitCount(ops[..|ops| - 1]) + (if ops[|ops| - 1].Commit? then 1 else 0)
  }

  /** Rows in files committed without a preset row id. */
  function FreshTotal(ops: seq<Op>): nat {
    if ops == [] then 0
    else
      var last := ops[|ops| - 1];
      FreshTotal(ops[..|ops| - 1]) + (if last.Commit? then FreshRows(last.snap.files) else 0)
  }

  /** Position of the last Overwrite or Replace commit, or 0. */
  function LastReset(ops: seq<Op>): (r: nat)
    ensures r <= |ops|
  {
    if ops == [] then 0
    else if ops[|ops| - 1].Commit? && ops[|ops| - 1].snap.operation in {Overwrite, Replace} then |ops| - 1
    else LastReset(ops[..|ops| - 1])
  }

  /** The files commit `j` of the history adds: made absolute, given the row ids that follow
      all fresh rows committed before, stamped with the commit's rank. */
  function AddedFiles(cfg: Config, v3: bool, ops: seq<Op>, j: nat): seq<DataFile>
    requires j < |ops|
  {
    if ops[j].Evolve? then []
    else PlaceFiles(cfg, v3, ops[j].snap.files, FreshTotal(ops[..j]), CommitCount(ops[..j]) + 1)
  }

  function AddedDeletes(cfg: Config, ops: seq<Op>, j: nat): seq<EqualityDelete>
    requires j < |ops|
  {
    if ops[j].Evolve? then []
    else PlaceDeletes(cfg, ops[j].snap.equalityDeletes, CommitCount(ops[..j]) + 1)
  }

  /** Everything added by the operations from position `lo` on, in commit order. */
  function FilesFrom(cfg: Config, v3: bool, ops: seq<Op>, lo: nat): seq<DataFile> {
    if |ops| <= lo then []
    else FilesFrom(cfg, v3, ops[..|ops| - 1], lo) + AddedFiles(cfg, v3, ops, |ops| - 1)
  }

  function DeletesFrom(cfg: Config, ops: seq<Op>, lo: nat): seq<EqualityDelete> {
    if |ops| <= lo then []
    else DeletesFrom(cfg, ops[..|ops| - 1], lo) + AddedDeletes(cfg, ops, |ops| - 1)
  }

  /** What a reader decodes of commit `j`'s manifests: its data files under the partition
      columns of the metadata the commit was built on, and its deletes. */
  function ListedFiles(cfg: Config, t0: Table, ops: seq<Op>, j: nat): seq<DataFile>
    requires j < |ops|
  {
    DecodedFiles(cfg, Columns(Fold(cfg, t0, ops[..j]).meta), AddedFiles(cfg, t0.meta.formatVersion >= 3, ops, j))
  }

  function ListedDeletes(cfg: Config, ops: seq<Op>, j: nat): Result<seq<EqualityDelete>>
    requires j < |ops|
  {
    if ops[j].Evolve? || ops[j].snap.equalityDeletes == [] then Ok([])
    else cfg.codec.deletes(ops[j].snap.id, CommitCount(ops[..j]) + 1, AddedDeletes(cfg, ops, j))
  }

  /** The decoded entries of the operations from position `lo` on, in commit order. */
  function ListingFrom(cfg: Config, t0: Table, ops: seq<Op>, lo: nat): seq<DataFile> {
    if |ops| <= lo then []
    else ListingFrom(cfg, t0, ops[..|ops| - 1], lo) + ListedFiles(cfg, t0, ops, |ops| - 1)
  }

  function DeleteListingFrom(cfg: Config, ops: seq<Op>, lo: nat): Result<seq<EqualityDelete>> {
    if |ops| <= lo then Ok([])
    else Then(DeleteListingFrom(cfg, ops[..|ops| - 1], lo), ListedDeletes(cfg, ops, |ops| - 1))
  }

  /** The manifests written by the operations from position `lo` on. */
  function RefsFrom(ops: seq<Op>, lo: nat): seq<ManifestRef> {
    if |ops| <= lo then []
    else
      var last := ops[|ops| - 1];
      RefsFrom(ops[..|ops| - 1], lo) + (if last.Commit? then ManifestsOf([], last.snap) else [])
  }

  // ---- bookkeeping over a history ------------------------------------------------

  lemma {:induction false} OpCounts(cfg: Config, t: Table, op: Op)
    ensures ApplyOp(cfg, t, op).meta.formatVersion == t.meta.formatVersion
    ensures ApplyOp(cfg, t, op).meta.lastSequenceNumber == t.meta.lastSequenceNumber + if op.Commit? then 1 else 0
    ensures ApplyOp(cfg, t, op).meta.nextRowId ==
      t.meta.nextRowId + if op.Commit? && t.meta.formatVersion >= 3 then FreshRows(op.snap.files) else 0
  {
    hide DataManifestOf, DeleteManifestOf, PuffinOf, PartitionStatsOf, WantsPuffin, WantsPartitionStats,
         Inherited, ManifestsOf, RemapSpecs;
  }

  lemma {:induction false} FoldCounts(cfg: Config, t0: Table, ops: seq<Op>)
    requires IsNew(t0)
    ensures Fold(cfg, t0, ops).meta.formatVersion == t0.meta.formatVersion
    ensures Fold(cfg, t0, ops).meta.lastSequenceNumber == CommitCount(ops)
    ensures Fold(cfg, t0, ops).meta.nextRowId == if t0.meta.formatVersion >= 3 then FreshTotal(ops) else 0
  {
    if ops != [] {
      FoldCounts(cfg, t0, ops[..|ops| - 1]);
      OpCounts(cfg, Fold(cfg, t0, ops[..|ops| - 1]), ops[|ops| - 1]);
      hide ApplyOp;
    }
  }

  lemma {:induction false} DistinctPrefix(ops: seq<Op>, k: nat)
    requires DistinctIds(ops) && k <= |ops|
    ensures DistinctIds(ops[..k])
    ensures k < |ops| && ops[k].Commit? ==> Unused(ops[..k], ops[k].snap.id)
  {
  }

  lemma {:induction false} UnusedStep(ops: seq<Op>)
    requires ops != []
    ensures forall id :: Unused(ops, id) ==> Unused(ops[..|ops| - 1], id)
    ensures ops[|ops| - 1].Commit? ==> !Unused(ops, ops[|ops| - 1].snap.id)
  {
  }

  /** A commit touches only paths named after its own snapshot. */
  lemma {:induction false} CommitFrame(cfg: Config, t: Table, snap: NewSnapshot, env: Env)
    ensures forall p: Path :: !p.OfSnapshot(snap.id) ==>
      (p in CommitObjects(cfg, t, snap, env) <==> p in t.objects)
    ensures forall p: Path :: !p.OfSnapshot(snap.id) && p in t.objects ==>
      CommitObjects(cfg, t, snap, env)[p] == t.objects[p]
  {
    hide DataManifestOf, DeleteManifestOf, PuffinOf, PartitionStatsOf, WantsPuffin, WantsPartitionStats,
         Inherited, ManifestsOf, RemapSpecs;
  }

  lemma {:induction false} OpFrame(cfg: Config, t: Table, op: Op)
    ensures forall p :: p in t.objects && (op.Commit? ==> !p.OfSnapshot(op.snap.id)) ==>
      p in ApplyOp(cfg, t, op).objects && ApplyOp(cfg, t, op).objects[p] == t.objects[p]
  {
    if op.Commit? {
      CommitFrame(cfg, t, op.snap, op.env);
      hide CommitObjects;
    }
  }

  lemma {:induction false} FoldKeys(cfg: Config, t0: Table, ops: seq<Op>)
    requires IsNew(t0)
    ensures forall p :: p in Fold(cfg, t0, ops).objects ==> p.IsCommitPath() && !Unused(ops, p.snapshot)
  {
    if ops != [] {
      var last := |ops| - 1;
      FoldKeys(cfg, t0, ops[..last]);
      UnusedStep(ops);
      hide Unused, CommitObjects;
      if ops[last].Commit? {
        CommitFrame(cfg, Fold(cfg, t0, ops[..last]), ops[last].snap, ops[last].env);
      }
    }
  }

  /** An object written by an earlier prefix of the history is never changed by the rest. */
  lemma {:induction false} FoldGrows(cfg: Config, t0: Table, ops: seq<Op>, k: nat)
    requires IsNew(t0) && DistinctIds(ops) && k <= |ops|
    ensures forall p :: p in Fold(cfg, t0, ops[..k]).objects ==>
      p in Fold(cfg, t0, ops).objects && Fold(cfg, t0, ops).objects[p] == Fold(cfg, t0, ops[..k]).objects[p]
    decreases |ops|
  {
    hide ApplyOp, DistinctIds, Unused;
    if k == |ops| {
      assert ops[..k] == ops;
    } else {
      var last := |ops| - 1;
      DistinctPrefix(ops, last);
      FoldGrows(cfg, t0, ops[..last], k);
      assert ops[..last][..k] == ops[..k];
      FoldKeys(cfg, t0, ops[..last]);
      OpFrame(cfg, Fold(cfg, t0, ops[..last]), ops[last]);
    }
  }

  // ---- what the objects of a history hold ----------------------------------------

  /** The objects and the metadata fields one commit leaves behind. */
  lemma {:induction false} CommitFacts(cfg: Config, t: Table, snap: NewSnapshot, env: Env)
    ensures var o := CommitTable(cfg, t, snap, env).objects;
      && var data, list := DataManifestPath(snap.id), ManifestListPath(snap.id);
      && data in o && o[data] == DataManifestOf(cfg, t.meta, snap)
      && list in o && o[list] == ManifestList(ManifestsOf(Inherited(t.objects, t.meta, snap.operation), snap))
    ensures var o := CommitTable(cfg, t, snap, env).objects;
      snap.equalityDeletes != [] ==>
        && var delete := DeleteManifestPath(snap.id);
        && delete in o && o[delete] == DeleteManifestOf(cfg, t.meta, snap)
    ensures var m := CommitTable(cfg, t, snap, env).meta;
      && m.snapshots == t.meta.snapshots + [NewSnapshotRecord(t.meta, snap, env.now)]
      && m.currentSnapshotId == Some(snap.id)
      && m.lastSequenceNumber == t.meta.lastSequenceNumber + 1
  {
    hide DataManifestOf, DeleteManifestOf, PuffinOf, PartitionStatsOf, WantsPuffin, WantsPartitionStats,
         Inherited, ManifestsOf, RemapSpecs;
  }

  lemma {:induction false} PlaceIgnoresRowIds(cfg: Config, files: seq<DataFile>, a: int, b: int, sequenceNumber: int)
    ensures PlaceFiles(cfg, false, files, a, sequenceNumber) == PlaceFiles(cfg, false, files, b, sequenceNumber)
  {
  }

  /** What commit `j` puts into its manifests is what the history says it adds. */
  lemma {:induction false} AddedByCommit(cfg: Config, t0: Table, ops: seq<Op>, j: nat)
    requires IsNew(t0) && j < |ops| && ops[j].Commit?
    ensures var meta := Fold(cfg, t0, ops[..j]).meta;
      && CommittedFiles(cfg, meta, ops[j].snap) == AddedFiles(cfg, t0.meta.formatVersion >= 3, ops, j)
      && CommittedDeletes(cfg, meta, ops[j].snap) == AddedDeletes(cfg, ops, j)
  {
    hide PlaceFiles, PlaceDeletes, PlaceDelete, Fold, CommitCount, FreshTotal, IsNew;
    FoldCounts(cfg, t0, ops[..j]);
    PlaceIgnoresRowIds(cfg, ops[j].snap.files, 0, FreshTotal(ops[..j]), CommitCount(ops[..j]) + 1);
  }

  lemma {:induction false} DecodedOfCommit(cfg: Config, t0: Table, ops: seq<Op>, j: nat)
    requires IsNew(t0) && j < |ops| && ops[j].Commit?
    ensures var meta := Fold(cfg, t0, ops[..j]).meta;
      && DataManifestOf(cfg, meta, ops[j].snap).files == ListedFiles(cfg, t0, ops, j)
      && (ops[j].snap.equalityDeletes != [] ==>
            DeleteManifestOf(cfg, meta, ops[j].snap) == DeleteManifest(ListedDeletes(cfg, ops, j)))
  {
    hide Fold, AddedFiles, AddedDeletes, CommittedFiles, CommittedDeletes, DecodedFiles, Columns, CommitCount, FreshTotal, IsNew, Header;
    FoldCounts(cfg, t0, ops[..j]);
    AddedByCommit(cfg, t0, ops, j);
  }

  /** Just after commit `j` its manifests are in the store. */
  lemma {:induction false} ManifestsWritten(cfg: Config, t0: Table, ops: seq<Op>, j: nat)
    requires j < |ops| && ops[j].Commit?
    ensures var o, meta, snap := Fold(cfg, t0, ops[..j + 1]).objects, Fold(cfg, t0, ops[..j]).meta, ops[j].snap;
      && var p := DataManifestPath(snap.id); p in o && o[p] == DataManifestOf(cfg, meta, snap)
    ensures var o, meta, snap := Fold(cfg, t0, ops[..j + 1]).objects, Fold(cfg, t0, ops[..j]).meta, ops[j].snap;
      snap.equalityDeletes != [] ==>
        var p := DeleteManifestPath(snap.id); p in o && o[p] == DeleteManifestOf(cfg, meta, snap)
  {
    hide CommitTable, DataManifestOf, DeleteManifestOf;
    var upTo, t := ops[..j + 1], Fold(cfg, t0, ops[..j]);
    assert upTo[..j] == ops[..j] && upTo[j] == ops[j];
    assert Fold(cfg, t0, upTo) == CommitTable(cfg, t, ops[j].snap, ops[j].env);
    hide Fold;
    CommitFacts(cfg, t, ops[j].snap, ops[j].env);
  }

  /** Commit `j` left behind exactly the manifests of what the history says it added. */
  lemma {:induction false} ManifestsOfCommit(cfg: Config, t0: Table, ops: seq<Op>, j: nat)
    requires IsNew(t0) && DistinctIds(ops) && j < |ops| && ops[j].Commit?
    ensures var o := Fold(cfg, t0, ops).objects;
      && var p := DataManifestPath(ops[j].snap.id);
      && p in o && o[p].DataManifest?
      && o[p].files == ListedFiles(cfg, t0, ops, j)
    ensures var o := Fold(cfg, t0, ops).objects;
      var p := DeleteManifestPath(ops[j].snap.id);
      ops[j].snap.equalityDeletes != [] ==>
        p in o && o[p] == DeleteManifest(ListedDeletes(cfg, ops, j))
  {
    hide Fold, ListedFiles, ListedDeletes, DeleteManifestOf, CommittedFiles, DecodedFiles, Columns, Header, DistinctIds, IsNew;
    ManifestsWritten(cfg, t0, ops, j);
    DecodedOfCommit(cfg, t0, ops, j);
    FoldGrows(cfg, t0, ops, j + 1);
  }

  /** The current snapshot of `t` is its last one, and its manifest list is exactly `refs`. */
  ghost predicate ListIs(t: Table, refs: seq<ManifestRef>) {
    if t.meta.snapshots == [] then t.meta.currentSnapshotId == None && refs == []
    else
      var s := t.meta.snapshots[|t.meta.snapshots| - 1];
      && t.meta.currentSnapshotId == Some(s.id)
      && s.manifestList == ManifestListPath(s.id)
      && s.manifestList in t.objects
      && t.objects[s.manifestList] == ManifestList(refs)
  }

  lemma {:induction false} CommitExtendsList(cfg: Config, t: Table, snap: NewSnapshot, env: Env, refs: seq<ManifestRef>)
    requires ListIs(t, refs)
    ensures ListIs(CommitTable(cfg, t, snap, env),
                   (if snap.operation.Inherits() then refs else []) + ManifestsOf([], snap))
  {
    hide CommitTable, DataManifestOf, DeleteManifestOf, FreshRows;
    CommitFacts(cfg, t, snap, env);
    var inherited := if snap.operation.Inherits() then refs else [];
    assert Inherited(t.objects, t.meta, snap.operation) == inherited;
    assert ManifestsOf(inherited, snap) == inherited + ManifestsOf([], snap);
  }

  lemma {:induction false} OpExtendsList(cfg: Config, t: Table, op: Op, refs: seq<ManifestRef>)
    requires ListIs(t, refs)
    ensures ListIs(ApplyOp(cfg, t, op),
                   if op.Evolve? then refs
                   else (if op.snap.operation.Inherits() then refs else []) + ManifestsOf([], op.snap))
  {
    if op.Commit? {
      CommitExtendsList(cfg, t, op.snap, op.env, refs);
      hide ListIs, CommitTable;
    }
  }

  /** The last snapshot's manifest list names every manifest written since the last reset. */
  lemma {:induction false} CurrentList(cfg: Config, t0: Table, ops: seq<Op>)
    requires IsNew(t0)
    ensures ListIs(Fold(cfg, t0, ops), RefsFrom(ops, LastReset(ops)))
  {
    if ops != [] {
      var last := |ops| - 1;
      CurrentList(cfg, t0, ops[..last]);
      LastStep(ops);
      OpExtendsList(cfg, Fold(cfg, t0, ops[..last]), ops[last], RefsFrom(ops[..last], LastReset(ops[..last])));
      hide RefsFrom, LastReset, ListIs, ApplyOp, ManifestsOf;
    }
  }

  lemma {:induction false} LastStep(ops: seq<Op>)
    requires ops != []
    ensures var last := |ops| - 1;
      var before := RefsFrom(ops[..last], LastReset(ops[..last]));
      RefsFrom(ops, LastReset(ops)) ==
        if ops[last].Evolve? then before
        else (if ops[last].snap.operation.Inherits() then before else []) + ManifestsOf([], ops[last].snap)
  {
    var last := |ops| - 1;
    if ops[last].Evolve? {
      assert LastReset(ops[..last]) <= last;
    } else if !ops[last].snap.operation.Inherits() {
      assert RefsFrom(ops[..last], last) == [];
    }
  }

  /** An operation appends to the snapshot list: the new snapshot's record, or nothing. */
  lemma {:induction false} OpSnapshots(cfg: Config, t: Table, op: Op)
    ensures ApplyOp(cfg, t, op).meta.snapshots ==
      if op.Commit? then t.meta.snapshots + [NewSnapshotRecord(t.meta, op.snap, op.env.now)] else t.meta.snapshots
  {
    hide DataManifestOf, DeleteManifestOf, PuffinOf, PartitionStatsOf, WantsPuffin, WantsPartitionStats,
         Inherited, ManifestsOf, RemapSpecs;
  }

  lemma {:induction false} SnapshotIds(cfg: Config, t0: Table, ops: seq<Op>)
    requires IsNew(t0)
    ensures forall s :: s in Fold(cfg, t0, ops).meta.snapshots ==> !Unused(ops, s.id)
  {
    hide ApplyOp;
    if ops != [] {
      var last := |ops| - 1;
      SnapshotIds(cfg, t0, ops[..last]);
      OpSnapshots(cfg, Fold(cfg, t0, ops[..last]), ops[last]);
      UnusedStep(ops);
      hide Unused;
    }
  }

  /** Looking a snapshot up by its id finds the record of the commit that made it. */
  lemma {:induction false} SnapshotOfCommit(cfg: Config, t0: Table, ops: seq<Op>, j: nat)
    requires IsNew(t0) && DistinctIds(ops) && j < |ops| && ops[j].Commit?
    ensures FindSnapshot(Fold(cfg, t0, ops).meta.snapshots, ops[j].snap.id) ==
      Some(NewSnapshotRecord(Fold(cfg, t0, ops[..j]).meta, ops[j].snap, ops[j].env.now))
    decreases |ops|
  {
    hide ApplyOp, FindSnapshot;
    var last := |ops| - 1;
    var t := Fold(cfg, t0, ops[..last]);
    DistinctPrefix(ops, last);
    SnapshotIds(cfg, t0, ops[..last]);
    OpSnapshots(cfg, t, ops[last]);
    assert Fold(cfg, t0, ops) == ApplyOp(cfg, t, ops[last]);
    if j < last {
      assert ops[..last][..j] == ops[..j];
      SnapshotOfCommit(cfg, t0, ops[..last], j);
      if ops[last].Commit? {
        FindInPrefix(t.meta.snapshots, NewSnapshotRecord(t.meta, ops[last].snap, ops[last].env.now), ops[j].snap.id);
      }
    } else {
      FindAppended(t.meta.snapshots, NewSnapshotRecord(t.meta, ops[last].snap, ops[last].env.now));
    }
  }

  lemma {:induction false} FindInPrefix(snapshots: seq<Snapshot>, s: Snapshot, id: SnapshotId)
    requires FindSnapshot(snapshots, id).Some?
    ensures FindSnapshot(snapshots + [s], id) == FindSnapshot(snapshots, id)
  {
    if snapshots[0].id != id {
      assert (snapshots + [s])[1..] == snapshots[1..] + [s];
      FindInPrefix(snapshots[1..], s, id);
    }
  }

  lemma {:induction false} FindAppended(snapshots: seq<Snapshot>, s: Snapshot)
    requires forall x :: x in snapshots ==> x.id != s.id
    ensures FindSnapshot(snapshots + [s], s.id) == Some(s)
  {
    if snapshots != [] {
      assert (snapshots + [s])[1..] == snapshots[1..] + [s];
      FindAppended(snapshots[1..], s);
    }
  }

  lemma {:induction false} ReadDataConcat(o: Objects, a: seq<ManifestRef>, b: seq<ManifestRef>)
    requires ReadDataManifests(o, a).Ok? && ReadDataManifests(o, b).Ok?
    ensures ReadDataManifests(o, a + b) == Ok(ReadDataManifests(o, a).value + ReadDataManifests(o, b).value)
  {
    if a == [] {
      assert a + b == b;
      assert [] + ReadDataManifests(o, b).value == ReadDataManifests(o, b).value;
    } else {
      assert (a + b)[1..] == a[1..] + b;
      ReadDataConcat(o, a[1..], b);
      var x, y := ReadDataManifests(o, a[1..]).value, ReadDataManifests(o, b).value;
      if a[0].content == 0 {
        assert o[a[0].path].files + (x + y) == (o[a[0].path].files + x) + y;
      }
    }
  }

  lemma {:induction false} ReadDeleteConcat(o: Objects, a: seq<ManifestRef>, b: seq<ManifestRef>)
    ensures ReadDeleteManifests(o, a + b) == Then(ReadDeleteManifests(o, a), ReadDeleteManifests(o, b))
  {
    var y := ReadDeleteManifests(o, b);
    if a == [] {
      assert a + b == b;
      assert y.Ok? ==> [] + y.value == y.value;
    } else {
      assert (a + b)[1..] == a[1..] + b;
      ReadDeleteConcat(o, a[1..], b);
      if a[0].content == 1 && a[0].path in o && o[a[0].path].DeleteManifest? {
        ThenAssociative(o[a[0].path].decoded, ReadDeleteManifests(o, a[1..]), y);
      }
    }
  }

  lemma {:induction false} ThenAssociative<X>(a: Result<seq<X>>, b: Result<seq<X>>, c: Result<seq<X>>)
    ensures Then(a, Then(b, c)) == Then(Then(a, b), c)
  {
    if a.Ok? && b.Ok? && c.Ok? {
      assert a.value + (b.value + c.value) == a.value + b.value + c.value;
    }
  }

  /** In store `o` the manifests list back as these files and deletes. */
  ghost predicate Reads(o: Objects, manifests: seq<ManifestRef>, files: seq<DataFile>, deletes: Result<seq<EqualityDelete>>) {
    ReadDataManifests(o, manifests) == Ok(files) && ReadDeleteManifests(o, manifests) == deletes
  }

  lemma {:induction false} ReadsConcat(
    o: Objects, a: seq<ManifestRef>, fa: seq<DataFile>, da: Result<seq<EqualityDelete>>,
    b: seq<ManifestRef>, fb: seq<DataFile>, db: Result<seq<EqualityDelete>>)
    requires Reads(o, a, fa, da) && Reads(o, b, fb, db)
    ensures Reads(o, a + b, fa + fb, Then(da, db))
  {
    ReadDataConcat(o, a, b);
    ReadDeleteConcat(o, a, b);
  }

  lemma {:induction false} ReadsOfCommit(cfg: Config, t0: Table, ops: seq<Op>, j: nat)
    requires IsNew(t0) && DistinctIds(ops) && j < |ops| && ops[j].Commit?
    ensures Reads(Fold(cfg, t0, ops).objects, ManifestsOf([], ops[j].snap),
                  ListedFiles(cfg, t0, ops, j), ListedDeletes(cfg, ops, j))
  {
    ManifestsOfCommit(cfg, t0, ops, j);
    hide Fold, ListedFiles;
    ReadOneCommit(Fold(cfg, t0, ops).objects, ops[j].snap);
  }

  /** Reading the manifests of `ops[..k]` from position `lo` on, in the store of the whole history. */
  lemma {:induction false} ReadRefs(cfg: Config, t0: Table, ops: seq<Op>, k: nat, lo: nat)
    requires IsNew(t0) && DistinctIds(ops) && k <= |ops|
    ensures Reads(Fold(cfg, t0, ops).objects, RefsFrom(ops[..k], lo),
                  ListingFrom(cfg, t0, ops[..k], lo), DeleteListingFrom(cfg, ops[..k], lo))
  {
    if lo < k {
      var o, j := Fold(cfg, t0, ops).objects, k - 1;
      var before := ops[..j];
      ReadRefs(cfg, t0, ops, j, lo);
      FromStep(cfg, t0, ops, k, lo);
      hide Fold, Reads, RefsFrom, ListingFrom, DeleteListingFrom, ListedFiles, ListedDeletes, ManifestsOf, Then;
      if ops[j].Commit? {
        ReadsOfCommit(cfg, t0, ops, j);
        ReadsConcat(o, RefsFrom(before, lo), ListingFrom(cfg, t0, before, lo), DeleteListingFrom(cfg, before, lo),
                    ManifestsOf([], ops[j].snap), ListedFiles(cfg, t0, ops, j), ListedDeletes(cfg, ops, j));
      }
    }
  }

  lemma {:induction false} FromStep(cfg: Config, t0: Table, ops: seq<Op>, k: nat, lo: nat)
    requires lo < k <= |ops|
    ensures RefsFrom(ops[..k], lo) == RefsFrom(ops[..k - 1], lo) +
      (if ops[k - 1].Commit? then ManifestsOf([], ops[k - 1].snap) else [])
    ensures ListingFrom(cfg, t0, ops[..k], lo) == ListingFrom(cfg, t0, ops[..k - 1], lo) + ListedFiles(cfg, t0, ops, k - 1)
    ensures DeleteListingFrom(cfg, ops[..k], lo) ==
      Then(DeleteListingFrom(cfg, ops[..k - 1], lo), ListedDeletes(cfg, ops, k - 1))
    ensures ops[k - 1].Evolve? ==>
      && RefsFrom(ops[..k], lo) == RefsFrom(ops[..k - 1], lo)
      && ListingFrom(cfg, t0, ops[..k], lo) == ListingFrom(cfg, t0, ops[..k - 1], lo)
      && DeleteListingFrom(cfg, ops[..k], lo) == DeleteListingFrom(cfg, ops[..k - 1], lo)
  {
    hide Fold, Decoded, Columns, AddedFiles, AddedDeletes;
    assert ops[..k][..k - 1] == ops[..k - 1];
    AddedInPrefix(cfg, t0.meta.formatVersion >= 3, ops, k - 1);
    if ops[k - 1].Evolve? {
      NothingAdded(cfg, t0.meta.formatVersion >= 3, ops, k - 1);
      assert ListedFiles(cfg, t0, ops, k - 1) == [] && ListedDeletes(cfg, ops, k - 1) == Ok([]);
      var before := DeleteListingFrom(cfg, ops[..k - 1], lo);
      assert before.Ok? ==> before.value + [] == before.value;
    }
  }

  lemma {:induction false} NothingAdded(cfg: Config, v3: bool, ops: seq<Op>, j: nat)
    requires j < |ops| && ops[j].Evolve?
    ensures AddedFiles(cfg, v3, ops, j) == [] && AddedDeletes(cfg, ops, j) == []
  {
  }

  lemma {:induction false} AddedInPrefix(cfg: Config, v3: bool, ops: seq<Op>, j: nat)
    requires j < |ops|
    ensures AddedFiles(cfg, v3, ops[..j + 1], j) == AddedFiles(cfg, v3, ops, j)
    ensures AddedDeletes(cfg, ops[..j + 1], j) == AddedDeletes(cfg, ops, j)
  {
    assert ops[..j + 1][..j] == ops[..j];
  }

  lemma {:induction false} ReadSingle(o: Objects, snap: NewSnapshot)
    requires var p := DataManifestPath(snap.id); p in o && o[p].DataManifest?
    requires snap.equalityDeletes != [] ==> var p := DeleteManifestPath(snap.id); p in o && o[p].DeleteManifest?
    ensures var m := [ManifestRef(DataManifestPath(snap.id), 0)];
      && ReadDataManifests(o, m) == Ok(o[m[0].path].files) && ReadDeleteManifests(o, m) == Ok([])
    ensures var m := [ManifestRef(DeleteManifestPath(snap.id), 1)];
      snap.equalityDeletes != [] ==>
        ReadDataManifests(o, m) == Ok([]) && ReadDeleteManifests(o, m) == o[m[0].path].decoded
  {
    var data, delete := DataManifestPath(snap.id), DeleteManifestPath(snap.id);
    assert o[data].files + [] == o[data].files;
    if snap.equalityDeletes != [] {
      var d := o[delete].decoded;
      assert d.Ok? ==> d.value + [] == d.value;
    }
  }

  lemma {:induction false} ReadOneCommit(o: Objects, snap: NewSnapshot)
    requires var p := DataManifestPath(snap.id); p in o && o[p].DataManifest?
    requires snap.equalityDeletes != [] ==> var p := DeleteManifestPath(snap.id); p in o && o[p].DeleteManifest?
    ensures ReadDataManifests(o, ManifestsOf([], snap)) == Ok(o[DataManifestPath(snap.id)].files)
    ensures ReadDeleteManifests(o, ManifestsOf([], snap)) ==
      if snap.equalityDeletes != [] then o[DeleteManifestPath(snap.id)].decoded else Ok([])
  {
    ReadSingle(o, snap);
    var data, delete := ManifestRef(DataManifestPath(snap.id), 0), ManifestRef(DeleteManifestPath(snap.id), 1);
    if snap.equalityDeletes != [] {
      assert ManifestsOf([], snap) == [data] + [delete];
      ReadDataConcat(o, [data], [delete]);
      ReadDeleteConcat(o, [data], [delete]);
      assert o[data.path].files + [] == o[data.path].files;
      var d := o[delete.path].decoded;
      assert d.Ok? ==> [] + d.value == d.value;
    } else {
      assert ManifestsOf([], snap) == [data];
    }
  }

  /** The last snapshot's manifest list and every manifest it names are in the store. */
  lemma {:induction false} ListStored(cfg: Config, t0: Table, ops: seq<Op>)
    requires IsNew(t0) && DistinctIds(ops)
    ensures var t := Fold(cfg, t0, ops);
      && (t.meta.snapshots != [] ==> t.meta.snapshots[|t.meta.snapshots| - 1].manifestList in t.objects)
      && forall op: Operation, m :: m in Inherited(t.objects, t.meta, op) ==> m.path in t.objects
  {
    hide Fold, RefsFrom, LastReset, DistinctIds;
    CurrentList(cfg, t0, ops);
    assert ops[..|ops|] == ops;
    RefsStored(cfg, t0, ops, |ops|, LastReset(ops));
  }

  lemma {:induction false} RefsStored(cfg: Config, t0: Table, ops: seq<Op>, k: nat, lo: nat)
    requires IsNew(t0) && DistinctIds(ops) && k <= |ops|
    ensures forall m :: m in RefsFrom(ops[..k], lo) ==> m.path in Fold(cfg, t0, ops).objects
  {
    hide Fold, DistinctIds;
    if lo < k {
      RefsStored(cfg, t0, ops, k - 1, lo);
      assert ops[..k][..k - 1] == ops[..k - 1];
      if ops[k - 1].Commit? {
        ManifestsOfCommit(cfg, t0, ops, k - 1);
      }
    }
  }

  lemma {:induction false} SameEntries(a: Objects, b: Objects, manifests: seq<ManifestRef>)
    requires forall m :: m in manifests ==> m.path in a && m.path in b && a[m.path] == b[m.path]
    ensures DataEntries(a, manifests) == DataEntries(b, manifests)
  {
    if manifests != [] {
      SameEntries(a, b, manifests[1..]);
    }
  }

  // ---- listings ------------------------------------------------------------------

  /** The snapshot's manifest list and all manifests it names are in the store. */
  ghost predicate Complete(o: Objects, meta: Metadata, id: Option<SnapshotId>) {
    var m := SnapshotManifests(o, meta, id);
    m.Ok? && forall r :: r in m.value ==> r.path in o
  }

  /** Listing the current snapshot returns exactly the entries decoded from what was added
      since (and by) the last Overwrite or Replace, each stamped with the rank of its
      commit. */
  lemma {:induction false} CurrentListing(cfg: Config, t0: Table, ops: seq<Op>)
    requires IsNew(t0) && DistinctIds(ops)
    ensures var t := Fold(cfg, t0, ops);
      && Complete(t.objects, t.meta, None)
      && ListFiles(t.objects, t.meta, None) == Ok(ListingFrom(cfg, t0, ops, LastReset(ops)))
      && ListDeletes(t.objects, t.meta, None) == DeleteListingFrom(cfg, ops, LastReset(ops))
  {
    hide Fold, ListingFrom, DeleteListingFrom, RefsFrom, LastReset, ReadDataManifests, ReadDeleteManifests, FindSnapshot,
         DistinctIds, IsNew;
    var t := Fold(cfg, t0, ops);
    CurrentList(cfg, t0, ops);
    assert ops[..|ops|] == ops;
    ReadRefs(cfg, t0, ops, |ops|, LastReset(ops));
    RefsStored(cfg, t0, ops, |ops|, LastReset(ops));
    if t.meta.snapshots != [] {
      LastSnapshotFound(cfg, t0, ops);
    }
  }

  lemma {:induction false} LastSnapshotFound(cfg: Config, t0: Table, ops: seq<Op>)
    requires IsNew(t0) && DistinctIds(ops) && Fold(cfg, t0, ops).meta.snapshots != []
    ensures var t := Fold(cfg, t0, ops);
      var last := t.meta.snapshots[|t.meta.snapshots| - 1];
      FindSnapshot(t.meta.snapshots, last.id) == Some(last)
  {
    hide ApplyOp, FindSnapshot;
    var last := |ops| - 1;
    var t := Fold(cfg, t0, ops[..last]);
    DistinctPrefix(ops, last);
    OpSnapshots(cfg, t, ops[last]);
    assert Fold(cfg, t0, ops) == ApplyOp(cfg, t, ops[last]);
    if ops[last].Commit? {
      SnapshotIds(cfg, t0, ops[..last]);
      FindAppended(t.meta.snapshots, NewSnapshotRecord(t.meta, ops[last].snap, ops[last].env.now));
    } else {
      LastSnapshotFound(cfg, t0, ops[..last]);
    }
  }

  /** Time travel: however the history continues, the snapshot of commit `j` lists what was
      current when commit `j` had just been made. */
  lemma {:induction false} SnapshotListing(cfg: Config, t0: Table, ops: seq<Op>, j: nat)
    requires IsNew(t0) && DistinctIds(ops) && j < |ops| && ops[j].Commit?
    ensures var t := Fold(cfg, t0, ops);
      var made, id := ops[..j + 1], Some(ops[j].snap.id);
      && Complete(t.objects, t.meta, id)
      && ListFiles(t.objects, t.meta, id) == Ok(ListingFrom(cfg, t0, made, LastReset(made)))
      && ListDeletes(t.objects, t.meta, id) == DeleteListingFrom(cfg, made, LastReset(made))
  {
    hide Fold, ListingFrom, DeleteListingFrom, RefsFrom, LastReset, ReadDataManifests, ReadDeleteManifests, SnapshotManifests,
         DistinctIds, IsNew;
    var made := ops[..j + 1];
    ManifestsOfSnapshot(cfg, t0, ops, j);
    ReadRefs(cfg, t0, ops, j + 1, LastReset(made));
    RefsStored(cfg, t0, ops, j + 1, LastReset(made));
  }

  lemma {:induction false} ManifestsOfSnapshot(cfg: Config, t0: Table, ops: seq<Op>, j: nat)
    requires IsNew(t0) && DistinctIds(ops) && j < |ops| && ops[j].Commit?
    ensures var t := Fold(cfg, t0, ops);
      SnapshotManifests(t.objects, t.meta, Some(ops[j].snap.id)) == Ok(RefsFrom(ops[..j + 1], LastReset(ops[..j + 1])))
  {
    hide Fold, RefsFrom, LastReset, FindSnapshot, DistinctIds;
    ListOfCommit(cfg, t0, ops, j);
    FoldGrows(cfg, t0, ops, j + 1);
    SnapshotOfCommit(cfg, t0, ops, j);
  }

  lemma {:induction false} ListOfCommit(cfg: Config, t0: Table, ops: seq<Op>, j: nat)
    requires IsNew(t0) && j < |ops| && ops[j].Commit?
    ensures var o := Fold(cfg, t0, ops[..j + 1]).objects;
      var p := ManifestListPath(ops[j].snap.id);
      p in o && o[p] == ManifestList(RefsFrom(ops[..j + 1], LastReset(ops[..j + 1])))
  {
    var made := ops[..j + 1];
    var t := Fold(cfg, t0, ops[..j]);
    assert made[..j] == ops[..j];
    CurrentList(cfg, t0, made);
    OpSnapshots(cfg, t, ops[j]);
    assert Fold(cfg, t0, made) == ApplyOp(cfg, t, ops[j]);
    hide ApplyOp, Fold, RefsFrom, LastReset;
  }

  // ---- when the listing is what was committed ------------------------------------

  /** Every file of commit `j` is decoded as it was written. */
  ghost predicate FilesKept(cfg: Config, t0: Table, ops: seq<Op>, j: nat)
    requires j < |ops|
  {
    var added := AddedFiles(cfg, t0.meta.formatVersion >= 3, ops, j);
    forall i :: 0 <= i < |added| ==>
      cfg.codec.extras(Columns(Fold(cfg, t0, ops[..j]).meta), added[i]) == ExtrasOf(added[i])
  }

  ghost predicate DeletesKept(cfg: Config, ops: seq<Op>, j: nat)
    requires j < |ops|
  {
    ListedDeletes(cfg, ops, j) == Ok(AddedDeletes(cfg, ops, j))
  }

  /** Decoding the commit's delete manifest does not yield more entries than were written. */
  ghost predicate NotMore(cfg: Config, ops: seq<Op>, j: nat)
    requires j < |ops|
  {
    ListedDeletes(cfg, ops, j).Ok? ==> |ListedDeletes(cfg, ops, j).value| <= |AddedDeletes(cfg, ops, j)|
  }

  lemma {:induction false} ConcatEqual<X>(a: seq<X>, b: seq<X>, c: seq<X>, d: seq<X>)
    requires |a| == |c|
    ensures a + b == c + d <==> a == c && b == d
  {
    if a + b == c + d {
      assert a == (a + b)[..|a|] && b == (a + b)[|a|..];
    }
  }

  lemma {:induction false} FilesKeptExactly(cfg: Config, t0: Table, ops: seq<Op>, j: nat)
    requires j < |ops|
    ensures |ListedFiles(cfg, t0, ops, j)| == |AddedFiles(cfg, t0.meta.formatVersion >= 3, ops, j)|
    ensures ListedFiles(cfg, t0, ops, j) == AddedFiles(cfg, t0.meta.formatVersion >= 3, ops, j) <==> FilesKept(cfg, t0, ops, j)
  {
    hide Fold, AddedFiles, Columns;
    var added, listed := AddedFiles(cfg, t0.meta.formatVersion >= 3, ops, j), ListedFiles(cfg, t0, ops, j);
    var columns := Columns(Fold(cfg, t0, ops[..j]).meta);
    forall i | 0 <= i < |added| ensures listed[i] == added[i] <==> cfg.codec.extras(columns, added[i]) == ExtrasOf(added[i]) {
      assert listed[i] == Decoded(cfg, columns, added[i]);
    }
  }

  lemma {:induction false} KeptInPrefix(cfg: Config, t0: Table, ops: seq<Op>, n: nat, j: nat)
    requires j < n <= |ops|
    ensures FilesKept(cfg, t0, ops[..n], j) <==> FilesKept(cfg, t0, ops, j)
    ensures DeletesKept(cfg, ops[..n], j) <==> DeletesKept(cfg, ops, j)
    ensures NotMore(cfg, ops[..n], j) <==> NotMore(cfg, ops, j)
  {
    hide Fold, Columns, AddedFiles, AddedDeletes, CommitCount;
    assert ops[..n][..j] == ops[..j];
    AddedBefore(cfg, t0.meta.formatVersion >= 3, ops, n, j);
  }

  lemma {:induction false} AddedBefore(cfg: Config, v3: bool, ops: seq<Op>, n: nat, j: nat)
    requires j < n <= |ops|
    ensures AddedFiles(cfg, v3, ops[..n], j) == AddedFiles(cfg, v3, ops, j)
    ensures AddedDeletes(cfg, ops[..n], j) == AddedDeletes(cfg, ops, j)
  {
    hide PlaceFiles, PlaceDeletes;
    assert ops[..n][..j] == ops[..j] && ops[..n][j] == ops[j];
  }

  lemma {:induction false} ListingLength(cfg: Config, t0: Table, ops: seq<Op>, lo: nat)
    ensures |ListingFrom(cfg, t0, ops, lo)| == |FilesFrom(cfg, t0.meta.formatVersion >= 3, ops, lo)|
    decreases |ops|
  {
    if lo < |ops| {
      ListingLength(cfg, t0, ops[..|ops| - 1], lo);
      FilesKeptExactly(cfg, t0, ops, |ops| - 1);
      hide ListedFiles, AddedFiles;
    }
  }

  /** The files listed are the files committed if and only if every one of them is decoded as
      it was written. */
  lemma {:induction false} ListingExact(cfg: Config, t0: Table, ops: seq<Op>, lo: nat)
    ensures ListingFrom(cfg, t0, ops, lo) == FilesFrom(cfg, t0.meta.formatVersion >= 3, ops, lo) <==>
      forall j :: lo <= j < |ops| ==> FilesKept(cfg, t0, ops, j)
    decreases |ops|
  {
    hide FilesKept, ListedFiles, AddedFiles;
    if lo < |ops| {
      var n, v3 := |ops| - 1, t0.meta.formatVersion >= 3;
      ListingExact(cfg, t0, ops[..n], lo);
      ListingLength(cfg, t0, ops[..n], lo);
      FilesKeptExactly(cfg, t0, ops, n);
      ConcatEqual(ListingFrom(cfg, t0, ops[..n], lo), ListedFiles(cfg, t0, ops, n),
                  FilesFrom(cfg, v3, ops[..n], lo), AddedFiles(cfg, v3, ops, n));
      forall j | lo <= j < n ensures FilesKept(cfg, t0, ops[..n], j) <==> FilesKept(cfg, t0, ops, j) {
        KeptInPrefix(cfg, t0, ops, n, j);
      }
    }
  }

  lemma {:induction false} DeleteListingLength(cfg: Config, t0: Table, ops: seq<Op>, lo: nat)
    requires forall j :: lo <= j < |ops| ==> NotMore(cfg, ops, j)
    ensures DeleteListingFrom(cfg, ops, lo).Ok? ==> |DeleteListingFrom(cfg, ops, lo).value| <= |DeletesFrom(cfg, ops, lo)|
    decreases |ops|
  {
    hide ListedDeletes, AddedDeletes, FilesKept, DeletesKept;
    if lo < |ops| {
      var n := |ops| - 1;
      assert NotMore(cfg, ops, n);
      forall j | lo <= j < n ensures NotMore(cfg, ops[..n], j) {
        KeptInPrefix(cfg, t0, ops, n, j);
      }
      DeleteListingLength(cfg, t0, ops[..n], lo);
    }
  }

  lemma {:induction false} ThenExact<X>(a: Result<seq<X>>, b: Result<seq<X>>, c: seq<X>, d: seq<X>)
    requires (a.Ok? ==> |a.value| <= |c|) && (b.Ok? ==> |b.value| <= |d|)
    ensures Then(a, b) == Ok(c + d) <==> a == Ok(c) && b == Ok(d)
  {
    if Then(a, b) == Ok(c + d) {
      assert |a.value + b.value| == |c + d|;
      ConcatEqual(a.value, b.value, c, d);
    }
  }

  /** The deletes listed are the deletes committed if and only if every commit's delete
      manifest is decoded as it was written. */
  lemma {:induction false} DeleteListingExact(cfg: Config, t0: Table, ops: seq<Op>, lo: nat)
    requires forall j :: lo <= j < |ops| ==> NotMore(cfg, ops, j)
    ensures DeleteListingFrom(cfg, ops, lo) == Ok(DeletesFrom(cfg, ops, lo)) <==>
      forall j :: lo <= j < |ops| ==> DeletesKept(cfg, ops, j)
    decreases |ops|
  {
    hide ListedDeletes, AddedDeletes, Then, FilesKept;
    if lo < |ops| {
      var n := |ops| - 1;
      assert DeleteListingFrom(cfg, ops, lo) == Then(DeleteListingFrom(cfg, ops[..n], lo), ListedDeletes(cfg, ops, n));
      assert DeletesFrom(cfg, ops, lo) == DeletesFrom(cfg, ops[..n], lo) + AddedDeletes(cfg, ops, n);
      assert NotMore(cfg, ops, n);
      assert DeletesKept(cfg, ops, n) <==> ListedDeletes(cfg, ops, n) == Ok(AddedDeletes(cfg, ops, n));
      hide DeleteListingFrom, DeletesFrom, DeletesKept;
      forall j | lo <= j < n
        ensures NotMore(cfg, ops[..n], j) && (DeletesKept(cfg, ops[..n], j) <==> DeletesKept(cfg, ops, j))
      {
        KeptInPrefix(cfg, t0, ops, n, j);
      }
      DeleteListingExact(cfg, t0, ops[..n], lo);
      DeleteListingLength(cfg, t0, ops[..n], lo);
      ThenExact(DeleteListingFrom(cfg, ops[..n], lo), ListedDeletes(cfg, ops, n),
                DeletesFrom(cfg, ops[..n], lo), AddedDeletes(cfg, ops, n));
    }
  }

  // ---- reading through a larger store --------------------------------------------

  /** Store `b` holds everything `a` holds. */
  ghost predicate SubMap(a: Objects, b: Objects) {
    forall p :: p in a ==> p in b && b[p] == a[p]
  }

  /** Reading the larger store gives the same listing as reading the table's own objects. */
  lemma {:induction false} SameListing(o: Objects, t: Table, id: Option<SnapshotId>)
    requires SubMap(t.objects, o) && Complete(t.objects, t.meta, id)
    ensures ListFiles(o, t.meta, id) == ListFiles(t.objects, t.meta, id)
    ensures ListDeletes(o, t.meta, id) == ListDeletes(t.objects, t.meta, id)
  {
    var m := SnapshotManifests(t.objects, t.meta, id);
    SameReads(t.objects, o, m.value);
  }

  lemma {:induction false} SameReads(a: Objects, b: Objects, manifests: seq<ManifestRef>)
    requires SubMap(a, b) && forall r :: r in manifests ==> r.path in a
    ensures ReadDataManifests(b, manifests) == ReadDataManifests(a, manifests)
    ensures ReadDeleteManifests(b, manifests) == ReadDeleteManifests(a, manifests)
  {
    if manifests != [] {
      SameReads(a, b, manifests[1..]);
    }
  }

  // ---- sequence numbers and equality deletes -------------------------------------

  /** The scan-planning rule of the Iceberg table spec: an equality delete applies to a data
      file with a strictly smaller data sequence number. */
  predicate Masks(d: EqualityDelete, f: DataFile) {
    f.sequenceNumber < d.sequenceNumber
  }

  lemma {:induction false} CommitCountGrows(ops: seq<Op>, i: nat, j: nat)
    requires i <= j <= |ops|
    ensures CommitCount(ops[..i]) <= CommitCount(ops[..j])
    ensures i < j && ops[i].Commit? ==> CommitCount(ops[..i]) < CommitCount(ops[..j])
    decreases j - i
  {
    if i < j {
      assert ops[..i + 1][..i] == ops[..i];
      CommitCountGrows(ops, i + 1, j);
    }
  }

  /** A delete committed by `j` masks a file committed by `i` exactly when `i` came first;
      in particular never a file of its own commit. */
  lemma {:induction false} DeleteMasksEarlierCommits(cfg: Config, v3: bool, ops: seq<Op>, i: nat, j: nat, f: DataFile, d: EqualityDelete)
    requires i < |ops| && j < |ops|
    requires f in AddedFiles(cfg, v3, ops, i) && d in AddedDeletes(cfg, ops, j)
    ensures Masks(d, f) <==> i < j
  {
    if i < j {
      CommitCountGrows(ops, i, j);
    } else {
      CommitCountGrows(ops, j, i);
    }
  }

  // ---- row ids (V3) --------------------------------------------------------------

  /** A run of row ids starting at `first`; absent when the file has none. */
  datatype RowRange = RowRange(first: Option<int>, count: nat)

  /** The ranges recorded for the files that were requested without a row id. */
  function FreshRanges(requested: seq<DataFile>, stored: seq<DataFile>): seq<RowRange>
    requires |requested| == |stored|
  {
    if requested == [] then []
    else (if requested[0].firstRowId.None? then [RowRange(stored[0].firstRowId, stored[0].recordCount)] else [])
         + FreshRanges(requested[1..], stored[1..])
  }

  /** The ranges follow one another from `lo` to `hi` without gap or overlap. */
  predicate Tiles(ranges: seq<RowRange>, lo: int, hi: int) {
    if ranges == [] then lo == hi
    else ranges[0].first == Some(lo) && Tiles(ranges[1..], lo + ranges[0].count, hi)
  }

  lemma {:induction false} TilesConcat(a: seq<RowRange>, b: seq<RowRange>, lo: int, mid: int, hi: int)
    requires Tiles(a, lo, mid) && Tiles(b, mid, hi)
    ensures Tiles(a + b, lo, hi)
  {
    if a == [] {
      assert a + b == b;
    } else {
      assert (a + b)[1..] == a[1..] + b;
      TilesConcat(a[1..], b, lo + a[0].count, mid, hi);
    }
  }

  lemma {:induction false} AssignTiles(requested: seq<DataFile>, files: seq<DataFile>, next: int)
    requires |files| == |requested|
    requires forall i :: 0 <= i < |files| ==>
      files[i].firstRowId == requested[i].firstRowId && files[i].recordCount == requested[i].recordCount
    ensures Tiles(FreshRanges(requested, AssignRowIds(files, next)), next, next + FreshRows(requested))
  {
    if files != [] {
      var placed := AssignRowIds(files, next);
      var next' := if files[0].firstRowId.Some? then next else next + files[0].recordCount;
      assert placed[1..] == AssignRowIds(files[1..], next');
      AssignTiles(requested[1..], files[1..], next');
      if files[0].firstRowId.None? {
        var head := [RowRange(Some(next), files[0].recordCount)];
        assert FreshRanges(requested, placed) == head + FreshRanges(requested[1..], placed[1..]);
        assert head[1..] == [];
        TilesConcat(head, FreshRanges(requested[1..], placed[1..]), next, next', next + FreshRows(requested));
      } else {
        assert FreshRanges(requested, placed) == FreshRanges(requested[1..], placed[1..]);
      }
    }
  }

  lemma {:induction false} RangesAgree(requested: seq<DataFile>, a: seq<DataFile>, b: seq<DataFile>)
    requires |requested| == |a| == |b|
    requires forall i :: 0 <= i < |a| ==> a[i].firstRowId == b[i].firstRowId && a[i].recordCount == b[i].recordCount
    ensures FreshRanges(requested, a) == FreshRanges(requested, b)
  {
    if requested != [] {
      RangesAgree(requested[1..], a[1..], b[1..]);
    }
  }

  /** The fresh ranges of one V3 commit tile the next free row ids. */
  lemma {:induction false} PlaceTiles(cfg: Config, files: seq<DataFile>, next: int, sequenceNumber: int)
    ensures |PlaceFiles(cfg, true, files, next, sequenceNumber)| == |files|
    ensures Tiles(FreshRanges(files, PlaceFiles(cfg, true, files, next, sequenceNumber)), next, next + FreshRows(files))
  {
    var absolute := AbsoluteFiles(cfg, files);
    AssignTiles(files, absolute, next);
    RangesAgree(files, AssignRowIds(absolute, next), PlaceFiles(cfg, true, files, next, sequenceNumber));
  }

  /** The files stored in the data manifest of commit `j`. */
  function StoredFiles(objects: Objects, ops: seq<Op>, j: nat): seq<DataFile>
    requires j < |ops|
  {
    if ops[j].Evolve? then []
    else
      var p := DataManifestPath(ops[j].snap.id);
      if p in objects && objects[p].DataManifest? then objects[p].files else []
  }

  /** The fresh row-id ranges found in the manifests of the first `k` operations, in commit order. */
  function AllocatedRanges(objects: Objects, ops: seq<Op>, k: nat): seq<RowRange>
    requires k <= |ops|
  {
    if k == 0 then []
    else
      var op, stored := ops[k - 1], StoredFiles(objects, ops, k - 1);
      AllocatedRanges(objects, ops, k - 1)
      + (if op.Commit? && |stored| == |op.snap.files| then FreshRanges(op.snap.files, stored) else [])
  }

  /** On a V3 table the fresh ranges found in the store tile `[0, next-row-id)` in commit order. */
  lemma {:induction false} RowIdsTile(cfg: Config, t0: Table, ops: seq<Op>)
    requires IsNew(t0) && DistinctIds(ops) && t0.meta.formatVersion >= 3
    ensures var t := Fold(cfg, t0, ops);
      Tiles(AllocatedRanges(t.objects, ops, |ops|), 0, t.meta.nextRowId)
  {
    FoldCounts(cfg, t0, ops);
    assert ops[..|ops|] == ops;
    RowIdsTileUpTo(cfg, t0, ops, |ops|);
  }

  lemma {:induction false} RowIdsTileUpTo(cfg: Config, t0: Table, ops: seq<Op>, k: nat)
    requires IsNew(t0) && DistinctIds(ops) && t0.meta.formatVersion >= 3 && k <= |ops|
    ensures Tiles(AllocatedRanges(Fold(cfg, t0, ops).objects, ops, k), 0, FreshTotal(ops[..k]))
  {
    hide Fold, FreshRanges, DistinctIds, StoredFiles;
    if k > 0 {
      var j, o := k - 1, Fold(cfg, t0, ops).objects;
      RowIdsTileUpTo(cfg, t0, ops, j);
      if ops[j].Commit? {
        CommitTiles(cfg, t0, ops, j);
        hide Tiles;
        TilesConcat(AllocatedRanges(o, ops, j), FreshRanges(ops[j].snap.files, StoredFiles(o, ops, j)),
                    0, FreshTotal(ops[..j]), FreshTotal(ops[..k]));
      } else {
        assert ops[..k][..j] == ops[..j];
        assert AllocatedRanges(o, ops, k) == AllocatedRanges(o, ops, j);
      }
    }
  }

  /** The fresh ranges of commit `j` start where those of the commits before it ended. */
  lemma {:induction false} CommitTiles(cfg: Config, t0: Table, ops: seq<Op>, j: nat)
    requires IsNew(t0) && DistinctIds(ops) && t0.meta.formatVersion >= 3 && j < |ops| && ops[j].Commit?
    ensures var stored := StoredFiles(Fold(cfg, t0, ops).objects, ops, j);
      && |stored| == |ops[j].snap.files|
      && Tiles(FreshRanges(ops[j].snap.files, stored), FreshTotal(ops[..j]), FreshTotal(ops[..j + 1]))
  {
    hide Fold, PlaceFiles, Columns;
    ManifestsOfCommit(cfg, t0, ops, j);
    var stored := StoredFiles(Fold(cfg, t0, ops).objects, ops, j);
    var placed := PlaceFiles(cfg, true, ops[j].snap.files, FreshTotal(ops[..j]), CommitCount(ops[..j]) + 1);
    assert stored == DecodedFiles(cfg, Columns(Fold(cfg, t0, ops[..j]).meta), placed);
    PlaceTiles(cfg, ops[j].snap.files, FreshTotal(ops[..j]), CommitCount(ops[..j]) + 1);
    assert ops[..j + 1][..j] == ops[..j];
    hide FreshRanges, DistinctIds, Tiles, StoredFiles;
    RangesAgree(ops[j].snap.files, stored, placed);
  }

  /** A preset row id is stored unchanged; on a V2 table no file ever receives one. */
  lemma {:induction false} PresetRowIdsKept(cfg: Config, t0: Table, ops: seq<Op>, j: nat, i: nat)
    requires IsNew(t0) && DistinctIds(ops) && j < |ops| && ops[j].Commit? && i < |ops[j].snap.files|
    ensures var stored := StoredFiles(Fold(cfg, t0, ops).objects, ops, j);
      && |stored| == |ops[j].snap.files|
      && (ops[j].snap.files[i].firstRowId.Some? || t0.meta.formatVersion < 3 ==>
            stored[i].firstRowId == ops[j].snap.files[i].firstRowId)
  {
    ManifestsOfCommit(cfg, t0, ops, j);
    AssignKeepsPreset(AbsoluteFiles(cfg, ops[j].snap.files), FreshTotal(ops[..j]), i);
    hide Fold, Columns;
  }

  lemma {:induction false} AssignKeepsPreset(files: seq<DataFile>, next: int, i: nat)
    requires i < |files|
    ensures files[i].firstRowId.Some? ==> AssignRowIds(files, next)[i] == files[i]
  {
    if i > 0 {
      AssignKeepsPreset(files[1..], if files[0].firstRowId.Some? then next else next + files[0].recordCount, i - 1);
    }
  }
}
