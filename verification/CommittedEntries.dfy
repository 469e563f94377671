/** The entries a history lists, compared with what its commits asked for: paths, counts, sizes
    and sequence numbers, one entry per requested file and delete, in request order. */
module CommittedEntries {
  import opened Wrappers
  import opened TableModel
  import opened CommitSpec
  import opened CommitHistory

  // ---- paths ---------------------------------------------------------------------

  /** Starts with a slash, or has a scheme: `://` somewhere. */
  ghost predicate Rooted(p: Text) {
    (p != [] && p[0] == 0x2F) || exists a: Text, b: Text :: p == a + [0x3A, 0x2F, 0x2F] + b
  }

  lemma {:induction false} RootedExactly(p: Text)
    ensures IsAbsolute(p) <==> Rooted(p)
  {
    if i :| 0 <= i < |p| - 2 && p[i] == COLON && p[i + 1] == SLASH && p[i + 2] == SLASH {
      assert p == p[..i] + [0x3A, 0x2F, 0x2F] + p[i + 3..];
    }
    if a: Text, b: Text :| p == a + [0x3A, 0x2F, 0x2F] + b {
      var i := |a|;
      assert p[i] == 0x3A && p[i + 1] == 0x2F && p[i + 2] == 0x2F;
    }
  }

  /** Taking the root and one slash off the front leaves the requested path. */
  ghost predicate Under(root: Text, requested: Text, stored: Text) {
    && |stored| == |root| + 1 + |requested|
    && stored[..|root|] == root && stored[|root|] == 0x2F && stored[|root| + 1..] == requested
  }

  ghost predicate FilePath(warehouse: Text, requested: Text, stored: Text) {
    if Rooted(warehouse) && !Rooted(requested) then Under(warehouse, requested, stored) else stored == requested
  }

  ghost predicate DeletePath(tableRoot: Text, requested: Text, stored: Text) {
    if Rooted(requested) then stored == requested else Under(tableRoot, requested, stored)
  }

  lemma {:induction false} UnderRoot(root: Text, requested: Text)
    ensures Under(root, requested, root + [SLASH] + requested)
    ensures Rooted(root) ==> Rooted(root + [SLASH] + requested)
  {
    var stored := root + [SLASH] + requested;
    assert stored[..|root|] == root && stored[|root| + 1..] == requested;
    if a: Text, b: Text :| root == a + [0x3A, 0x2F, 0x2F] + b {
      assert stored == a + [0x3A, 0x2F, 0x2F] + (b + [SLASH] + requested);
    }
  }

  lemma {:induction false} UnderUnique(root: Text, requested: Text, stored: Text)
    requires Under(root, requested, stored)
    ensures stored == root + [SLASH] + requested
  {
    assert stored == stored[..|root|] + [stored[|root|]] + stored[|root| + 1..];
  }

  /** Under an absolute warehouse every stored path is absolute. Two requests share a stored
      path only when they are the same, or one is the other's place under the warehouse spelled
      out; two relative ones never do. */
  lemma {:induction false} StoredPaths(warehouse: Text, a: Text, b: Text, atA: Text, atB: Text)
    requires FilePath(warehouse, a, atA) && FilePath(warehouse, b, atB)
    ensures Rooted(warehouse) ==> Rooted(atA)
    ensures !Rooted(a) && !Rooted(b) && a != b ==> atA != atB
    ensures atA == atB <==>
      || a == b
      || (Rooted(warehouse) && Rooted(a) && !Rooted(b) && Under(warehouse, b, a))
      || (Rooted(warehouse) && Rooted(b) && !Rooted(a) && Under(warehouse, a, b))
  {
    hide Rooted;
    forall p: Text, stored: Text | Under(warehouse, p, stored)
      ensures stored == warehouse + [SLASH] + p && (Rooted(warehouse) ==> Rooted(stored))
    {
      UnderUnique(warehouse, p, stored);
      UnderRoot(warehouse, p);
    }
  }

  // ---- one entry -----------------------------------------------------------------

  /** A request and the sequence number of the commit that made it. */
  datatype Asked<T> = Asked(entry: T, number: int)

  ghost predicate SameFile(cfg: Config, a: Asked<DataFile>, f: DataFile) {
    && FilePath(cfg.warehouse, a.entry.path, f.path)
    && f.recordCount == a.entry.recordCount && f.fileSize == a.entry.fileSize
    && f.sequenceNumber == a.number
    && (a.entry.firstRowId.Some? ==> f.firstRowId == a.entry.firstRowId)
  }

  ghost predicate SameExtras(a: Asked<DataFile>, f: DataFile) {
    f.partitionValue == a.entry.partitionValue && f.vectorStats == a.entry.vectorStats && f.payload == a.entry.payload
  }

  ghost predicate SameDelete(cfg: Config, a: Asked<EqualityDelete>, d: EqualityDelete) {
    && DeletePath(cfg.tableRoot, a.entry.path, d.path)
    && d.equalityIds == a.entry.equalityIds
    && d.recordCount == a.entry.recordCount && d.fileSize == a.entry.fileSize
    && d.sequenceNumber == a.number
  }

  lemma {:induction false} RowIdsOnly(files: seq<DataFile>, next: int, i: nat)
    requires i < |files|
    ensures var f := AssignRowIds(files, next)[i];
      f == files[i].(firstRowId := f.firstRowId) && (files[i].firstRowId.Some? ==> f == files[i])
  {
    if i > 0 {
      RowIdsOnly(files[1..], if files[0].firstRowId.Some? then next else next + files[0].recordCount, i - 1);
    }
  }

  lemma {:induction false} AbsoluteAsAsked(cfg: Config, f: DataFile)
    ensures FilePath(cfg.warehouse, f.path, AbsoluteFile(cfg, f).path)
    ensures AbsoluteFile(cfg, f) == f.(path := AbsoluteFile(cfg, f).path)
  {
    hide IsAbsolute, Rooted, Under;
    RootedExactly(f.path);
    RootedExactly(cfg.warehouse);
    UnderRoot(cfg.warehouse, f.path);
  }

  lemma {:induction false} PlacedAsAsked(cfg: Config, v3: bool, files: seq<DataFile>, next: int, number: int, i: nat)
    requires i < |files|
    ensures var placed := PlaceFiles(cfg, v3, files, next, number);
      && |placed| == |files|
      && SameFile(cfg, Asked(files[i], number), placed[i]) && SameExtras(Asked(files[i], number), placed[i])
  {
    hide AbsoluteFile, FilePath, AssignRowIds;
    AbsoluteAsAsked(cfg, files[i]);
    RowIdsOnly(AbsoluteFiles(cfg, files), next, i);
  }

  lemma {:induction false} DeleteAsAsked(cfg: Config, d: EqualityDelete, number: int)
    ensures SameDelete(cfg, Asked(d, number), PlaceDelete(cfg, d, number))
  {
    hide IsAbsolute, Rooted, Under;
    RootedExactly(d.path);
    UnderRoot(cfg.tableRoot, d.path);
  }

  // ---- one commit ----------------------------------------------------------------

  function AskedFiles(ops: seq<Op>, j: nat): seq<Asked<DataFile>>
    requires j < |ops|
  {
    if ops[j].Evolve? then []
    else seq(|ops[j].snap.files|, i requires 0 <= i < |ops[j].snap.files| => Asked(ops[j].snap.files[i], CommitCount(ops[..j]) + 1))
  }

  function AskedDeletes(ops: seq<Op>, j: nat): seq<Asked<EqualityDelete>>
    requires j < |ops|
  {
    if ops[j].Evolve? then []
    else seq(|ops[j].snap.equalityDeletes|, i requires 0 <= i < |ops[j].snap.equalityDeletes| =>
               Asked(ops[j].snap.equalityDeletes[i], CommitCount(ops[..j]) + 1))
  }

  ghost predicate SameFiles(cfg: Config, asked: seq<Asked<DataFile>>, got: seq<DataFile>) {
    |asked| == |got| && forall i :: 0 <= i < |got| ==> SameFile(cfg, asked[i], got[i])
  }

  ghost predicate AllExtras(asked: seq<Asked<DataFile>>, got: seq<DataFile>) {
    |asked| == |got| && forall i :: 0 <= i < |got| ==> SameExtras(asked[i], got[i])
  }

  ghost predicate SameDeletes(cfg: Config, asked: seq<Asked<EqualityDelete>>, got: seq<EqualityDelete>) {
    |asked| == |got| && forall i :: 0 <= i < |got| ==> SameDelete(cfg, asked[i], got[i])
  }

  lemma {:induction false} AddedAsAsked(cfg: Config, v3: bool, ops: seq<Op>, j: nat)
    requires j < |ops|
    ensures SameFiles(cfg, AskedFiles(ops, j), AddedFiles(cfg, v3, ops, j))
    ensures AllExtras(AskedFiles(ops, j), AddedFiles(cfg, v3, ops, j))
    ensures SameDeletes(cfg, AskedDeletes(ops, j), AddedDeletes(cfg, ops, j))
  {
    hide PlaceFiles, PlaceDelete, SameFile, SameExtras, SameDelete, CommitCount, FreshTotal;
    if ops[j].Commit? {
      var snap, next, number := ops[j].snap, FreshTotal(ops[..j]), CommitCount(ops[..j]) + 1;
      var placed := PlaceFiles(cfg, v3, snap.files, next, number);
      PlacedLength(cfg, v3, snap.files, next, number);
      forall i | 0 <= i < |placed|
        ensures SameFile(cfg, AskedFiles(ops, j)[i], placed[i]) && SameExtras(AskedFiles(ops, j)[i], placed[i])
      {
        PlacedAsAsked(cfg, v3, snap.files, next, number, i);
      }
      forall i | 0 <= i < |snap.equalityDeletes|
        ensures SameDelete(cfg, AskedDeletes(ops, j)[i], AddedDeletes(cfg, ops, j)[i])
      {
        DeleteAsAsked(cfg, snap.equalityDeletes[i], number);
      }
    }
  }

  lemma {:induction false} PlacedLength(cfg: Config, v3: bool, files: seq<DataFile>, next: int, number: int)
    ensures |PlaceFiles(cfg, v3, files, next, number)| == |files|
  {
    hide AssignRowIds, AbsoluteFiles;
  }

  /** The codec touches the extras only, and keeps them exactly when the files are kept. */
  lemma {:induction false} ListedAsAsked(cfg: Config, t0: Table, ops: seq<Op>, j: nat)
    requires j < |ops|
    ensures SameFiles(cfg, AskedFiles(ops, j), ListedFiles(cfg, t0, ops, j))
    ensures AllExtras(AskedFiles(ops, j), ListedFiles(cfg, t0, ops, j)) <==> FilesKept(cfg, t0, ops, j)
  {
    hide Fold, Columns, AddedFiles, AskedFiles, FilePath;
    var v3 := t0.meta.formatVersion >= 3;
    AddedAsAsked(cfg, v3, ops, j);
    var asked, added, listed := AskedFiles(ops, j), AddedFiles(cfg, v3, ops, j), ListedFiles(cfg, t0, ops, j);
    var columns := Columns(Fold(cfg, t0, ops[..j]).meta);
    forall i | 0 <= i < |added|
      ensures SameFile(cfg, asked[i], listed[i])
      ensures SameExtras(asked[i], listed[i]) <==> cfg.codec.extras(columns, added[i]) == ExtrasOf(added[i])
    {
      assert SameFile(cfg, asked[i], added[i]) && SameExtras(asked[i], added[i]);
      assert listed[i] == Decoded(cfg, columns, added[i]);
    }
  }

  /** The file found in the store for request `i` of commit `j`. Its partition value, vector
      statistics and index fields are the requested ones exactly when the codec keeps them. */
  lemma {:induction false} FileInStore(cfg: Config, t0: Table, ops: seq<Op>, j: nat, i: nat)
    requires IsNew(t0) && DistinctIds(ops) && j < |ops| && ops[j].Commit? && i < |ops[j].snap.files|
    ensures var o, p, added := Fold(cfg, t0, ops).objects, DataManifestPath(ops[j].snap.id),
                               AddedFiles(cfg, t0.meta.formatVersion >= 3, ops, j);
      var asked := Asked(ops[j].snap.files[i], CommitCount(ops[..j]) + 1);
      && p in o && o[p].DataManifest? && |o[p].files| == |ops[j].snap.files| == |added|
      && SameFile(cfg, asked, o[p].files[i])
      && (SameExtras(asked, o[p].files[i]) <==>
            cfg.codec.extras(Columns(Fold(cfg, t0, ops[..j]).meta), added[i]) == ExtrasOf(added[i]))
  {
    hide Fold, Columns, AddedFiles, FilePath, CommitCount, IsNew, DistinctIds;
    var v3 := t0.meta.formatVersion >= 3;
    ManifestsOfCommit(cfg, t0, ops, j);
    AddedAsAsked(cfg, v3, ops, j);
    var added, listed := AddedFiles(cfg, v3, ops, j), ListedFiles(cfg, t0, ops, j);
    assert |AskedFiles(ops, j)| == |ops[j].snap.files|;
    assert AskedFiles(ops, j)[i] == Asked(ops[j].snap.files[i], CommitCount(ops[..j]) + 1);
    assert SameFile(cfg, AskedFiles(ops, j)[i], added[i]) && SameExtras(AskedFiles(ops, j)[i], added[i]);
    assert listed[i] == Decoded(cfg, Columns(Fold(cfg, t0, ops[..j]).meta), added[i]);
  }

  // ---- listings ------------------------------------------------------------------

  /** What the operations from position `lo` on asked for, in commit order. */
  function AskedFrom(ops: seq<Op>, lo: nat): seq<Asked<DataFile>> {
    if |ops| <= lo then [] else AskedFrom(ops[..|ops| - 1], lo) + AskedFiles(ops, |ops| - 1)
  }

  function AskedDeletesFrom(ops: seq<Op>, lo: nat): seq<Asked<EqualityDelete>> {
    if |ops| <= lo then [] else AskedDeletesFrom(ops[..|ops| - 1], lo) + AskedDeletes(ops, |ops| - 1)
  }

  lemma {:induction false} SameConcat(
    cfg: Config, a: seq<Asked<DataFile>>, b: seq<Asked<DataFile>>, x: seq<DataFile>, y: seq<DataFile>)
    requires SameFiles(cfg, a, x) && SameFiles(cfg, b, y)
    ensures SameFiles(cfg, a + b, x + y)
    ensures AllExtras(a + b, x + y) <==> AllExtras(a, x) && AllExtras(b, y)
  {
    hide SameFile, SameExtras;
    if AllExtras(a + b, x + y) {
      forall i | 0 <= i < |x| ensures SameExtras(a[i], x[i]) {
        assert (a + b)[i] == a[i] && (x + y)[i] == x[i];
      }
      forall i | 0 <= i < |y| ensures SameExtras(b[i], y[i]) {
        assert (a + b)[|a| + i] == b[i] && (x + y)[|x| + i] == y[i];
      }
    }
  }

  /** The listing from `lo` on has one entry per requested file, in request order. The extras
      are the requested ones exactly when every commit's files are kept. */
  lemma {:induction false} ListingAsAsked(cfg: Config, t0: Table, ops: seq<Op>, lo: nat)
    ensures SameFiles(cfg, AskedFrom(ops, lo), ListingFrom(cfg, t0, ops, lo))
    ensures AllExtras(AskedFrom(ops, lo), ListingFrom(cfg, t0, ops, lo)) <==>
      forall j :: lo <= j < |ops| ==> FilesKept(cfg, t0, ops, j)
    decreases |ops|
  {
    hide FilesKept, ListedFiles, AskedFiles, SameFile, SameExtras;
    if lo < |ops| {
      var n := |ops| - 1;
      ListingAsAsked(cfg, t0, ops[..n], lo);
      ListedAsAsked(cfg, t0, ops, n);
      forall j | lo <= j < n ensures FilesKept(cfg, t0, ops[..n], j) <==> FilesKept(cfg, t0, ops, j) {
        KeptInPrefix(cfg, t0, ops, n, j);
      }
      hide SameFiles, AllExtras;
      SameConcat(cfg, AskedFrom(ops[..n], lo), AskedFiles(ops, n), ListingFrom(cfg, t0, ops[..n], lo), ListedFiles(cfg, t0, ops, n));
    }
  }

  lemma {:induction false} DeletesAsAsked(cfg: Config, ops: seq<Op>, lo: nat)
    ensures SameDeletes(cfg, AskedDeletesFrom(ops, lo), DeletesFrom(cfg, ops, lo))
    decreases |ops|
  {
    hide AskedDeletes, AddedDeletes, SameDelete;
    if lo < |ops| {
      DeletesAsAsked(cfg, ops[..|ops| - 1], lo);
      AddedAsAsked(cfg, true, ops, |ops| - 1);
    }
  }

  /** The files and deletes are those asked for by and since the last Overwrite or Replace:
      the files always, the deletes when every delete manifest is decoded as written. */
  ghost predicate ListsAsked(
    cfg: Config, t0: Table, ops: seq<Op>, files: Result<seq<DataFile>>, deletes: Result<seq<EqualityDelete>>)
  {
    var lo := LastReset(ops);
    && files.Ok? && SameFiles(cfg, AskedFrom(ops, lo), files.value)
    && (AllExtras(AskedFrom(ops, lo), files.value) <==> forall j :: lo <= j < |ops| ==> FilesKept(cfg, t0, ops, j))
    && ((forall j :: lo <= j < |ops| ==> DeletesKept(cfg, ops, j)) ==>
          deletes.Ok? && SameDeletes(cfg, AskedDeletesFrom(ops, lo), deletes.value))
  }

  lemma {:induction false} AsAsked(
    cfg: Config, t0: Table, ops: seq<Op>, files: Result<seq<DataFile>>, deletes: Result<seq<EqualityDelete>>)
    requires files == Ok(ListingFrom(cfg, t0, ops, LastReset(ops))) && deletes == DeleteListingFrom(cfg, ops, LastReset(ops))
    ensures ListsAsked(cfg, t0, ops, files, deletes)
  {
    hide LastReset, ListingFrom, DeleteListingFrom, AskedFrom, AskedDeletesFrom, FilesKept, DeletesKept, SameFiles, AllExtras,
         SameDeletes;
    var lo := LastReset(ops);
    ListingAsAsked(cfg, t0, ops, lo);
    DeletesAsAsked(cfg, ops, lo);
    if forall j :: lo <= j < |ops| ==> DeletesKept(cfg, ops, j) {
      KeptDeletes(cfg, ops, lo);
    }
  }

  lemma {:induction false} KeptDeletes(cfg: Config, ops: seq<Op>, lo: nat)
    requires forall j :: lo <= j < |ops| ==> DeletesKept(cfg, ops, j)
    ensures DeleteListingFrom(cfg, ops, lo) == Ok(DeletesFrom(cfg, ops, lo))
    decreases |ops|
  {
    hide ListedDeletes, AddedDeletes;
    if lo < |ops| {
      var n := |ops| - 1;
      assert DeletesKept(cfg, ops, n);
      forall j | lo <= j < n ensures DeletesKept(cfg, ops[..n], j) {
        assert DeletesKept(cfg, ops, j);
        DeletesKeptBefore(cfg, ops, n, j);
      }
      KeptDeletes(cfg, ops[..n], lo);
    }
  }

  lemma {:induction false} DeletesKeptBefore(cfg: Config, ops: seq<Op>, n: nat, j: nat)
    requires j < n <= |ops|
    ensures DeletesKept(cfg, ops[..n], j) <==> DeletesKept(cfg, ops, j)
  {
    hide AddedDeletes, CommitCount;
    assert ops[..n][..j] == ops[..j];
    AddedBefore(cfg, true, ops, n, j);
  }

  /** The current snapshot lists what was asked for. */
  lemma {:induction false} CurrentAsAsked(cfg: Config, t0: Table, ops: seq<Op>)
    requires IsNew(t0) && DistinctIds(ops)
    ensures var t := Fold(cfg, t0, ops);
      ListsAsked(cfg, t0, ops, ListFiles(t.objects, t.meta, None), ListDeletes(t.objects, t.meta, None))
  {
    hide Fold, ListFiles, ListDeletes, ListsAsked, LastReset, ListingFrom, DeleteListingFrom, IsNew, DistinctIds;
    var t := Fold(cfg, t0, ops);
    CurrentListing(cfg, t0, ops);
    AsAsked(cfg, t0, ops, ListFiles(t.objects, t.meta, None), ListDeletes(t.objects, t.meta, None));
  }

  /** The snapshot of commit `j` lists what was asked for up to it. */
  lemma {:induction false} SnapshotAsAsked(cfg: Config, t0: Table, ops: seq<Op>, j: nat)
    requires IsNew(t0) && DistinctIds(ops) && j < |ops| && ops[j].Commit?
    ensures var t, id := Fold(cfg, t0, ops), Some(ops[j].snap.id);
      ListsAsked(cfg, t0, ops[..j + 1], ListFiles(t.objects, t.meta, id), ListDeletes(t.objects, t.meta, id))
  {
    hide Fold, ListFiles, ListDeletes, ListsAsked, LastReset, ListingFrom, DeleteListingFrom, IsNew, DistinctIds;
    var t, id := Fold(cfg, t0, ops), Some(ops[j].snap.id);
    SnapshotListing(cfg, t0, ops, j);
    AsAsked(cfg, t0, ops[..j + 1], ListFiles(t.objects, t.meta, id), ListDeletes(t.objects, t.meta, id));
  }
}
