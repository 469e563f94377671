/** What schema evolutions keep, over every history: consecutive schema ids, field ids that
    are unique, bounded and never reused, and an unchanging partition spec. */
module SchemaHistory {
  import opened Wrappers
  import opened TableModel
  import opened CommitSpec

  // ---- the invariant -------------------------------------------------------------

  ghost predicate UniqueIds(fields: seq<Field>) {
    forall i, j :: 0 <= i < j < |fields| ==> fields[i].id != fields[j].id
  }

  ghost predicate BoundedIds(fields: seq<Field>, last: int) {
    forall i :: 0 <= i < |fields| ==> 1 <= fields[i].id <= last
  }

  /** `b` continues `a`: the columns of `a` stay in place with their id, type and
      nullability (only names may change), and every further column has an id that is
      larger than all ids of `a`. */
  ghost predicate Extends(a: seq<Field>, b: seq<Field>) {
    && |a| <= |b|
    && (forall i :: 0 <= i < |a| ==>
          b[i].id == a[i].id && b[i].fieldType == a[i].fieldType && b[i].required == a[i].required)
    && (forall i, j :: 0 <= i < |a| <= j < |b| ==> a[i].id < b[j].id)
  }

  ghost predicate SchemasOk(meta: Metadata) {
    && meta.schemas != []
    && meta.currentSchemaId == |meta.schemas| - 1
    && (forall i :: 0 <= i < |meta.schemas| ==>
          && meta.schemas[i].id == i
          && UniqueIds(meta.schemas[i].fields)
          && BoundedIds(meta.schemas[i].fields, meta.lastColumnId))
    && (forall i, j :: 0 <= i < j < |meta.schemas| ==> Extends(meta.schemas[i].fields, meta.schemas[j].fields))
  }

  /** Every source column of the default spec exists in the current schema. */
  ghost predicate SpecOk(meta: Metadata) {
    var spec := FindSpec(meta.partitionSpecs, meta.defaultSpecId);
    spec.Some? ==>
      forall i :: 0 <= i < |spec.value.fields| ==> HasId(CurrentFields(meta), spec.value.fields[i].sourceId)
  }

  ghost predicate HasId(fields: seq<Field>, id: int) {
    exists i :: 0 <= i < |fields| && fields[i].id == id
  }

  ghost predicate NoSchemaUpdates(ops: seq<Op>) {
    forall i :: 0 <= i < |ops| && ops[i].Commit? ==> ops[i].snap.schemaUpdate.None?
  }

  // ---- one evolution -------------------------------------------------------------

  lemma {:induction false} FindLast(schemas: seq<Schema>, k: nat)
    requires k < |schemas| && forall i :: 0 <= i < |schemas| ==> schemas[i].id == i + schemas[0].id
    ensures FindSchema(schemas, schemas[k].id) == Some(schemas[k])
  {
    if k > 0 {
      FindLast(schemas[1..], k - 1);
    }
  }

  lemma {:induction false} CurrentIsLast(meta: Metadata)
    requires SchemasOk(meta)
    ensures FindSchema(meta.schemas, meta.currentSchemaId) == Some(meta.schemas[|meta.schemas| - 1])
  {
    FindLast(meta.schemas, |meta.schemas| - 1);
  }

  /** Renames change names only. */
  lemma {:induction false} RenamesKeepColumns(fields: seq<Field>, renames: seq<Rename>)
    ensures var out := ApplyRenames(fields, renames);
      |out| == |fields| && forall i :: 0 <= i < |out| ==> out[i] == fields[i].(name := out[i].name)
    decreases |renames|
  {
    if renames != [] {
      RenamesKeepColumns(ApplyRename(fields, renames[0]), renames[1..]);
    }
  }

  lemma {:induction false} EvolutionExtends(fields: seq<Field>, e: Evolution, last: int)
    requires UniqueIds(fields) && BoundedIds(fields, last) && 0 <= last
    ensures var out := ApplyRenames(fields, e.renames) + AddedFields(e.adds, last);
      && UniqueIds(out) && BoundedIds(out, last + |e.adds|) && Extends(fields, out)
  {
    RenamesKeepColumns(fields, e.renames);
    hide ApplyRenames;
    var renamed, added := ApplyRenames(fields, e.renames), AddedFields(e.adds, last);
    assert forall i :: 0 <= i < |added| ==> added[i].id == last + 1 + i;
    assert forall i :: 0 <= i < |renamed| ==> renamed[i].id == fields[i].id;
    hide AddedFields, AddedField;
  }

  lemma {:induction false} ExtendsTrans(a: seq<Field>, b: seq<Field>, c: seq<Field>)
    requires Extends(a, b) && Extends(b, c)
    ensures Extends(a, c)
  {
    forall i, j | 0 <= i < |a| <= j < |c| ensures a[i].id < c[j].id {
      if j < |b| {
        assert c[j].id == b[j].id;
      } else {
        assert b[i].id < c[j].id;
      }
    }
  }

  /** An evolution of a table in good order succeeds and keeps it in good order. */
  lemma {:induction false} EvolveKeepsSchemas(meta: Metadata, e: Evolution, now: int)
    requires SchemasOk(meta) && 0 <= meta.lastColumnId
    ensures var m := EvolvedMetadata(meta, e, now);
      m.Ok? && SchemasOk(m.value) && meta.lastColumnId <= m.value.lastColumnId
  {
    hide ApplyRenames, AddedFields, Extends, UniqueIds, FindSchema;
    CurrentIsLast(meta);
    var n, current := |meta.schemas|, meta.schemas[|meta.schemas| - 1].fields;
    EvolutionExtends(current, e, meta.lastColumnId);
    var m := EvolvedMetadata(meta, e, now).value;
    forall i, j | 0 <= i < j < |m.schemas| ensures Extends(m.schemas[i].fields, m.schemas[j].fields) {
      if j == n && i < n - 1 {
        ExtendsTrans(m.schemas[i].fields, current, m.schemas[n].fields);
      }
    }
  }

  lemma {:induction false} ExtendsKeepsSourceType(a: seq<Field>, b: seq<Field>, id: int)
    requires Extends(a, b) && HasId(a, id)
    ensures SourceType(b, id) == SourceType(a, id)
  {
    if a[0].id != id {
      var i :| 0 <= i < |a| && a[i].id == id;
      assert a[1..][i - 1].id == id;
      ExtendsKeepsSourceType(a[1..], b[1..], id);
    }
  }

  lemma {:induction false} ExtendsKeepsIds(a: seq<Field>, b: seq<Field>, id: int)
    requires Extends(a, b) && HasId(a, id)
    ensures HasId(b, id)
  {
    var i :| 0 <= i < |a| && a[i].id == id;
    assert b[i].id == id;
  }

  /** The resolved partition spec depends on the schema only through the source types. */
  lemma {:induction false} SameResolution(a: Metadata, b: Metadata)
    requires a.partitionSpecs == b.partitionSpecs && a.defaultSpecId == b.defaultSpecId
    requires SpecOk(a) && Extends(CurrentFields(a), CurrentFields(b))
    ensures ResolvePartitionSpec(b) == ResolvePartitionSpec(a) && SpecOk(b)
  {
    var spec := FindSpec(a.partitionSpecs, a.defaultSpecId);
    if spec.Some? {
      forall i | 0 <= i < |spec.value.fields|
        ensures ResolveField(CurrentFields(a), spec.value.fields[i]) == ResolveField(CurrentFields(b), spec.value.fields[i])
        ensures HasId(CurrentFields(b), spec.value.fields[i].sourceId)
      {
        ExtendsKeepsSourceType(CurrentFields(a), CurrentFields(b), spec.value.fields[i].sourceId);
        ExtendsKeepsIds(CurrentFields(a), CurrentFields(b), spec.value.fields[i].sourceId);
      }
      assert ResolveFields(CurrentFields(a), spec.value.fields) == ResolveFields(CurrentFields(b), spec.value.fields);
    }
  }

  // ---- whole histories -----------------------------------------------------------

  ghost predicate Good(meta: Metadata) {
    SchemasOk(meta) && SpecOk(meta) && 0 <= meta.lastColumnId
  }

  lemma {:induction false} CommitKeepsSchemas(cfg: Config, meta: Metadata, snap: NewSnapshot, env: Env)
    requires snap.schemaUpdate.None?
    ensures var m := CommittedMetadata(cfg, meta, snap, env);
      && m.schemas == meta.schemas && m.currentSchemaId == meta.currentSchemaId && m.lastColumnId == meta.lastColumnId
      && m.partitionSpecs == meta.partitionSpecs && m.defaultSpecId == meta.defaultSpecId
  {
    hide WantsPuffin, WantsPartitionStats, NewSnapshotRecord;
  }

  lemma {:induction false} EvolutionKeepsResolution(meta: Metadata, e: Evolution, now: int)
    requires Good(meta)
    ensures var m := EvolvedMetadata(meta, e, now);
      && m.Ok? && Good(m.value)
      && meta.lastColumnId <= m.value.lastColumnId
      && ResolvePartitionSpec(m.value) == ResolvePartitionSpec(meta)
  {
    EvolveKeepsSchemas(meta, e, now);
    var m := EvolvedMetadata(meta, e, now).value;
    EvolvedSpecs(meta, e, now);
    hide EvolvedMetadata;
    CurrentIsLast(meta);
    CurrentIsLast(m);
    SameResolution(meta, m);
  }

  lemma {:induction false} OpKeepsSchemas(cfg: Config, t: Table, op: Op)
    requires Good(t.meta) && (op.Commit? ==> op.snap.schemaUpdate.None?)
    ensures var m := ApplyOp(cfg, t, op).meta;
      && Good(m)
      && t.meta.lastColumnId <= m.lastColumnId
      && ResolvePartitionSpec(m) == ResolvePartitionSpec(t.meta)
  {
    hide CommittedMetadata, EvolvedMetadata, CommitObjects;
    match op
    case Commit(snap, env) => CommitKeepsSchemas(cfg, t.meta, snap, env);
    case Evolve(e, now) => EvolutionKeepsResolution(t.meta, e, now);
  }

  lemma {:induction false} EvolvedSpecs(meta: Metadata, e: Evolution, now: int)
    requires EvolvedMetadata(meta, e, now).Ok?
    ensures var m := EvolvedMetadata(meta, e, now).value;
      && m.partitionSpecs == meta.partitionSpecs && m.defaultSpecId == meta.defaultSpecId
      && |m.schemas| == |meta.schemas| + 1
      && m.schemas[..|meta.schemas|] == meta.schemas
  {
  }

  lemma {:induction false} NewMetadataGood(formatVersion: int, partitions: seq<PartitionDef>, properties: map<string, string>, now: int)
    ensures Good(NewMetadata(formatVersion, partitions, properties, now))
  {
    var m := NewMetadata(formatVersion, partitions, properties, now);
    var fields := m.schemas[0].fields;
    assert CurrentFields(m) == fields;
    var spec := FindSpec(m.partitionSpecs, m.defaultSpecId);
    if partitions != [] {
      assert m.partitionSpecs[1..] == [m.partitionSpecs[1]];
      assert spec == Some(m.partitionSpecs[1]);
      forall i | 0 <= i < |spec.value.fields| ensures HasId(fields, spec.value.fields[i].sourceId) {
        assert fields[i].id == spec.value.fields[i].sourceId;
      }
    } else {
      assert spec == Some(m.partitionSpecs[0]);
    }
  }

  /** Over every history without schema updates, starting from any created table: schema ids
      are consecutive and the last one is current, field ids are unique within a schema, at
      most last-column-id and never reused, renames keep id and type, last-column-id never
      shrinks, and the resolved partition spec is the one the table was created with. */
  lemma {:induction false} SchemasOverHistory(
      cfg: Config, formatVersion: int, partitions: seq<PartitionDef>, properties: map<string, string>, now: int, ops: seq<Op>)
    requires NoSchemaUpdates(ops)
    ensures var t0 := Table(map[], NewMetadata(formatVersion, partitions, properties, now));
      var m := Fold(cfg, t0, ops).meta;
      && Good(m)
      && ResolvePartitionSpec(m) == ResolvePartitionSpec(t0.meta)
      && (ops != [] ==> Fold(cfg, t0, ops[..|ops| - 1]).meta.lastColumnId <= m.lastColumnId)
  {
    hide ApplyOp, NewMetadata, Good, ResolvePartitionSpec;
    var t0 := Table(map[], NewMetadata(formatVersion, partitions, properties, now));
    if ops == [] {
      NewMetadataGood(formatVersion, partitions, properties, now);
    } else {
      var last := |ops| - 1;
      SchemasOverHistory(cfg, formatVersion, partitions, properties, now, ops[..last]);
      OpKeepsSchemas(cfg, Fold(cfg, t0, ops[..last]), ops[last]);
    }
  }

  // ---- commits that carry a schema update ----------------------------------------

  lemma {:induction false} UpdateFacts(cfg: Config, meta: Metadata, snap: NewSnapshot, env: Env)
    requires meta.schemas != [] && snap.schemaUpdate.Some?
    ensures var u, m := snap.schemaUpdate.value, CommittedMetadata(cfg, meta, snap, env);
      && m.schemas == meta.schemas[0 := meta.schemas[0].(fields := u.fields)]
      && m.currentSchemaId == meta.currentSchemaId && m.lastColumnId == u.lastColumnId
      && m.partitionSpecs == RemapSpecs(u, meta.partitionSpecs)
  {
    hide WantsPuffin, WantsPartitionStats, NewSnapshotRecord, RemapSpecs;
  }

  /** Some column has one of the `count` ids after `last`. */
  ghost predicate HasIdAfter(fields: seq<Field>, last: int, count: nat) {
    exists i :: 0 <= i < |fields| && last < fields[i].id <= last + count
  }

  /** Columns appended with the ids after `last` collide exactly when one of those is taken. */
  lemma {:induction false} UniqueAfterAdding(fields: seq<Field>, e: Evolution, last: int)
    ensures UniqueIds(ApplyRenames(fields, e.renames) + AddedFields(e.adds, last)) <==>
      UniqueIds(fields) && !HasIdAfter(fields, last, |e.adds|)
  {
    RenamesKeepColumns(fields, e.renames);
    hide ApplyRenames;
    var renamed, added := ApplyRenames(fields, e.renames), AddedFields(e.adds, last);
    assert forall i :: 0 <= i < |added| ==> added[i].id == last + 1 + i;
    assert forall i :: 0 <= i < |renamed| ==> renamed[i].id == fields[i].id;
    hide AddedFields, AddedField;
    var all := renamed + added;
    if HasIdAfter(fields, last, |e.adds|) {
      var i :| 0 <= i < |fields| && last < fields[i].id <= last + |e.adds|;
      assert all[i].id == all[|fields| + fields[i].id - last - 1].id;
    } else if UniqueIds(all) {
      forall i, j | 0 <= i < j < |fields| ensures fields[i].id != fields[j].id {
        assert all[i].id != all[j].id;
      }
    }
  }

  /** Schema ids are positions and the last schema is current. */
  ghost predicate Numbered(meta: Metadata) {
    && meta.schemas != []
    && meta.currentSchemaId == |meta.schemas| - 1
    && forall i :: 0 <= i < |meta.schemas| ==> meta.schemas[i].id == i
  }

  lemma {:induction false} NumberedCurrent(meta: Metadata)
    requires Numbered(meta)
    ensures CurrentFields(meta) == meta.schemas[|meta.schemas| - 1].fields
  {
    hide FindSchema;
    FindLast(meta.schemas, |meta.schemas| - 1);
  }

  lemma {:induction false} EvolvedFields(meta: Metadata, e: Evolution, now: int)
    requires Numbered(meta)
    ensures var m := EvolvedMetadata(meta, e, now);
      && m.Ok? && Numbered(m.value)
      && CurrentFields(m.value) == ApplyRenames(CurrentFields(meta), e.renames) + AddedFields(e.adds, meta.lastColumnId)
  {
    hide FindSchema, ApplyRenames, AddedFields;
    FindLast(meta.schemas, |meta.schemas| - 1);
    NumberedCurrent(EvolvedMetadata(meta, e, now).value);
  }

  lemma {:induction false} UpdatedFields(cfg: Config, meta: Metadata, snap: NewSnapshot, env: Env)
    requires Numbered(meta)
    ensures var m := CommittedMetadata(cfg, meta, snap, env);
      && Numbered(m)
      && CurrentFields(m) == (if snap.schemaUpdate.Some? && meta.currentSchemaId == 0 then snap.schemaUpdate.value.fields
                              else CurrentFields(meta))
      && m.lastColumnId == if snap.schemaUpdate.Some? then snap.schemaUpdate.value.lastColumnId else meta.lastColumnId
  {
    hide CommittedMetadata, CurrentFields;
    if snap.schemaUpdate.Some? {
      UpdateFacts(cfg, meta, snap, env);
    } else {
      CommitKeepsSchemas(cfg, meta, snap, env);
    }
    NumberedCurrent(meta);
    NumberedCurrent(CommittedMetadata(cfg, meta, snap, env));
  }

  /** Every history of a created table, schema updates included, leaves its schemas numbered. */
  lemma {:induction false} HistoryNumbered(
      cfg: Config, formatVersion: int, partitions: seq<PartitionDef>, properties: map<string, string>, now: int, ops: seq<Op>)
    ensures Numbered(Fold(cfg, Table(map[], NewMetadata(formatVersion, partitions, properties, now)), ops).meta)
  {
    hide CommittedMetadata, EvolvedMetadata, CommitObjects, NewMetadata, CurrentFields, Good;
    var t0 := Table(map[], NewMetadata(formatVersion, partitions, properties, now));
    if ops == [] {
      NewMetadataGood(formatVersion, partitions, properties, now);
      GoodIsNumbered(t0.meta);
    } else {
      var last := |ops| - 1;
      HistoryNumbered(cfg, formatVersion, partitions, properties, now, ops[..last]);
      hide Numbered;
      var t := Fold(cfg, t0, ops[..last]);
      match ops[last]
      case Commit(snap, env) => UpdatedFields(cfg, t.meta, snap, env);
      case Evolve(e, at) => EvolvedFields(t.meta, e, at);
    }
  }

  lemma {:induction false} GoodIsNumbered(meta: Metadata)
    requires Good(meta)
    ensures Numbered(meta)
  {
    hide UniqueIds, BoundedIds, Extends, SpecOk;
  }

  // ---- what an evolution does to the columns -------------------------------------

  /** A column whose name is no rename's old name keeps it. */
  lemma {:induction false} RenamesSpare(fields: seq<Field>, renames: seq<Rename>, i: nat)
    requires i < |fields| && forall k :: 0 <= k < |renames| ==> renames[k].oldName != fields[i].name
    ensures |ApplyRenames(fields, renames)| == |fields| && ApplyRenames(fields, renames)[i] == fields[i]
    decreases |renames|
  {
    if renames != [] {
      var next := ApplyRename(fields, renames[0]);
      assert renames[0].oldName != fields[i].name;
      assert next[i] == fields[i];
      forall k | 0 <= k < |renames[1..]| ensures renames[1..][k].oldName != next[i].name {
        assert renames[1..][k] == renames[k + 1];
      }
      RenamesSpare(next, renames[1..], i);
    }
  }

  lemma {:induction false} RenamesCompose(fields: seq<Field>, first: seq<Rename>, second: seq<Rename>)
    ensures ApplyRenames(fields, first + second) == ApplyRenames(ApplyRenames(fields, first), second)
    decreases |first|
  {
    if first == [] {
      assert first + second == second;
    } else {
      assert (first + second)[0] == first[0] && (first + second)[1..] == first[1..] + second;
      RenamesCompose(ApplyRename(fields, first[0]), first[1..], second);
    }
  }

  /** What a list of renames makes of one name. */
  function NameAfter(renames: seq<Rename>, name: string): string {
    if renames == [] then name
    else NameAfter(renames[1..], if renames[0].oldName == name then renames[0].newName else name)
  }

  lemma {:induction false} RenamesByName(fields: seq<Field>, renames: seq<Rename>, i: nat)
    requires i < |fields|
    ensures |ApplyRenames(fields, renames)| == |fields|
    ensures ApplyRenames(fields, renames)[i] == fields[i].(name := NameAfter(renames, fields[i].name))
    decreases |renames|
  {
    if renames != [] {
      RenamesByName(ApplyRename(fields, renames[0]), renames[1..], i);
    }
  }

  /** The field has the name, type, nullability and documentation that were asked for; its
      initial default is the one asked for, or the write default when only that is given. */
  ghost predicate Added(a: AddColumn, f: Field) {
    && f.name == a.name && f.fieldType == a.fieldType && f.required == a.required && f.doc == a.doc
    && f.writeDefault == a.writeDefault
    && (a.initialDefault.Some? ==> f.initialDefault == a.initialDefault)
    && (a.initialDefault.None? ==> f.initialDefault == a.writeDefault)
  }

  /** The columns after an evolution: the old ones in place with nothing but their names
      changed, and those only by renames that name them; then the added ones with what was
      asked for and the next ids. */
  ghost predicate Reshaped(before: seq<Field>, e: Evolution, lastColumnId: int, fields: seq<Field>) {
    && |fields| == |before| + |e.adds|
    && (forall i :: 0 <= i < |before| ==> fields[i] == before[i].(name := NameAfter(e.renames, before[i].name)))
    && (forall i :: 0 <= i < |before| && (forall k :: 0 <= k < |e.renames| ==> e.renames[k].oldName != before[i].name) ==>
          fields[i] == before[i])
    && (forall k :: 0 <= k < |e.adds| ==> Added(e.adds[k], fields[|before| + k]) && fields[|before| + k].id == lastColumnId + 1 + k)
  }

  lemma {:induction false} ReshapedBy(before: seq<Field>, e: Evolution, lastColumnId: int)
    ensures Reshaped(before, e, lastColumnId, ApplyRenames(before, e.renames) + AddedFields(e.adds, lastColumnId))
  {
    hide ApplyRenames, NameAfter;
    RenamesKeepColumns(before, e.renames);
    forall i | 0 <= i < |before|
      ensures ApplyRenames(before, e.renames)[i] == before[i].(name := NameAfter(e.renames, before[i].name))
    {
      RenamesByName(before, e.renames, i);
    }
    forall i | 0 <= i < |before| && (forall k :: 0 <= k < |e.renames| ==> e.renames[k].oldName != before[i].name)
      ensures ApplyRenames(before, e.renames)[i] == before[i]
    {
      RenamesSpare(before, e.renames, i);
    }
  }

  lemma {:induction false} EvolvedColumns(meta: Metadata, e: Evolution, now: int)
    requires Numbered(meta)
    ensures var after := EvolvedMetadata(meta, e, now);
      after.Ok? && Reshaped(CurrentFields(meta), e, meta.lastColumnId, CurrentFields(after.value))
  {
    hide EvolvedMetadata, CurrentFields, ApplyRenames, AddedFields, Reshaped;
    EvolvedFields(meta, e, now);
    ReshapedBy(CurrentFields(meta), e, meta.lastColumnId);
  }

  /** One rename: every column of the old name gets the new one and nothing else changes, so no
      column of the old name is left. */
  lemma {:induction false} OneRename(meta: Metadata, oldName: string, newName: string, properties: map<string, string>, now: int)
    requires Numbered(meta)
    ensures var before, after := CurrentFields(meta), EvolvedMetadata(meta, Evolution([Rename(oldName, newName)], [], properties), now);
      && after.Ok?
      && var fields := CurrentFields(after.value);
      && |fields| == |before|
      && (forall i :: 0 <= i < |fields| && before[i].name == oldName ==> fields[i] == before[i].(name := newName))
      && (forall i :: 0 <= i < |fields| && before[i].name != oldName ==> fields[i] == before[i])
      && (oldName != newName ==> forall i :: 0 <= i < |fields| ==> fields[i].name != oldName)
  {
    hide EvolvedMetadata, CurrentFields;
    var e, before := Evolution([Rename(oldName, newName)], [], properties), CurrentFields(meta);
    EvolvedFields(meta, e, now);
    var once := ApplyRename(before, e.renames[0]);
    assert e.renames[1..] == [];
    assert ApplyRenames(before, e.renames) == ApplyRenames(once, []) == once;
    assert once + AddedFields([], meta.lastColumnId) == once;
  }

  /** Renames take effect in request order: all at once is the first ones and then the others. */
  lemma {:induction false} RenamesInOrder(
    meta: Metadata, first: seq<Rename>, second: seq<Rename>, adds: seq<AddColumn>, properties: map<string, string>, now: int, later: int)
    requires Numbered(meta)
    ensures var one := EvolvedMetadata(meta, Evolution(first, [], properties), now);
      && one.Ok?
      && var two, both := EvolvedMetadata(one.value, Evolution(second, adds, properties), later),
                          EvolvedMetadata(meta, Evolution(first + second, adds, properties), now);
      && two.Ok? && both.Ok? && CurrentFields(two.value) == CurrentFields(both.value)
  {
    hide EvolvedMetadata, CurrentFields, ApplyRenames, AddedFields, Numbered;
    EvolvedFields(meta, Evolution(first, [], properties), now);
    EvolvedFields(meta, Evolution(first + second, adds, properties), now);
    var one := EvolvedMetadata(meta, Evolution(first, [], properties), now).value;
    assert AddedFields([], meta.lastColumnId) == [];
    NothingAdded(meta, Evolution(first, [], properties), now);
    assert ApplyRenames(CurrentFields(meta), first) + [] == ApplyRenames(CurrentFields(meta), first);
    assert CurrentFields(one) == ApplyRenames(CurrentFields(meta), first);
    EvolvedFields(one, Evolution(second, adds, properties), later);
    RenamesCompose(CurrentFields(meta), first, second);
  }

  lemma {:induction false} NothingAdded(meta: Metadata, e: Evolution, now: int)
    requires e.adds == [] && EvolvedMetadata(meta, e, now).Ok?
    ensures EvolvedMetadata(meta, e, now).value.lastColumnId == meta.lastColumnId
  {
  }

  /** An evolution gives unique ids exactly when the current fields have unique ids and none
      of them has one of the ids it hands out. */
  lemma {:induction false} EvolveUnique(meta: Metadata, e: Evolution, now: int)
    requires Numbered(meta)
    ensures var after := EvolvedMetadata(meta, e, now);
      && after.Ok?
      && (UniqueIds(CurrentFields(after.value)) <==>
            UniqueIds(CurrentFields(meta)) && !HasIdAfter(CurrentFields(meta), meta.lastColumnId, |e.adds|))
  {
    hide EvolvedMetadata, CurrentFields, UniqueIds, HasIdAfter, ApplyRenames, AddedFields, Numbered;
    EvolvedFields(meta, e, now);
    UniqueAfterAdding(CurrentFields(meta), e, meta.lastColumnId);
  }

  /** A commit's schema update rewrites schema 0 and last-column-id even when a later schema
      is current. Whatever evolution follows, its ids are unique exactly when the fields then
      current (the update's own while schema 0 is current, the untouched ones otherwise) are
      unique and none of them has an id the evolution hands out. */
  lemma {:induction false} UpdateThenEvolve(cfg: Config, meta: Metadata, snap: NewSnapshot, env: Env, e: Evolution, now: int)
    requires Numbered(meta) && snap.schemaUpdate.Some?
    ensures var m := CommittedMetadata(cfg, meta, snap, env);
      var u, after := snap.schemaUpdate.value, EvolvedMetadata(m, e, now);
      && after.Ok?
      && (meta.currentSchemaId == 0 ==>
            (UniqueIds(CurrentFields(after.value)) <==>
               UniqueIds(u.fields) && !HasIdAfter(u.fields, u.lastColumnId, |e.adds|)))
      && (meta.currentSchemaId > 0 ==>
            (UniqueIds(CurrentFields(after.value)) <==>
               UniqueIds(CurrentFields(meta)) && !HasIdAfter(CurrentFields(meta), u.lastColumnId, |e.adds|)))
  {
    hide CommittedMetadata, EvolvedMetadata, CurrentFields, UniqueIds, HasIdAfter;
    UpdatedFields(cfg, meta, snap, env);
    EvolveUnique(CommittedMetadata(cfg, meta, snap, env), e, now);
  }

  /** The same on every table that any history of commits, with or without updates, and
      evolutions makes of a created one. */
  lemma {:induction false} UpdateThenEvolveInHistory(
      cfg: Config, formatVersion: int, partitions: seq<PartitionDef>, properties: map<string, string>, created: int,
      ops: seq<Op>, snap: NewSnapshot, env: Env, e: Evolution, now: int)
    requires snap.schemaUpdate.Some?
    ensures var t0 := Table(map[], NewMetadata(formatVersion, partitions, properties, created));
      var meta := Fold(cfg, t0, ops).meta;
      var after := Fold(cfg, t0, ops + [Commit(snap, env)] + [Evolve(e, now)]).meta;
      var u := snap.schemaUpdate.value;
      var fields := if meta.currentSchemaId == 0 then u.fields else CurrentFields(meta);
      UniqueIds(CurrentFields(after)) <==> UniqueIds(fields) && !HasIdAfter(fields, u.lastColumnId, |e.adds|)
  {
    hide CommittedMetadata, EvolvedMetadata, CommitObjects, NewMetadata, CurrentFields, UniqueIds, HasIdAfter;
    var t0 := Table(map[], NewMetadata(formatVersion, partitions, properties, created));
    HistoryNumbered(cfg, formatVersion, partitions, properties, created, ops);
    UpdateThenEvolve(cfg, Fold(cfg, t0, ops).meta, snap, env, e, now);
    FoldLast(cfg, t0, ops, Commit(snap, env));
    FoldLast(cfg, t0, ops + [Commit(snap, env)], Evolve(e, now));
    hide Fold;
  }

  lemma {:induction false} FoldLast(cfg: Config, t: Table, ops: seq<Op>, op: Op)
    ensures Fold(cfg, t, ops + [op]) == ApplyOp(cfg, Fold(cfg, t, ops), op)
  {
    hide ApplyOp;
    assert (ops + [op])[..|ops|] == ops;
  }

  const WITNESS_FIELD := Field(1, "id", false, "long", None, None, None)
  const WITNESS_UPDATE := NewSnapshot(7, None, [], Append, Some(SchemaUpdate([WITNESS_FIELD], 1, "[]")), map[], [], [])
  const WITNESS_ADD := AddColumn("b", "int", false, None, None, None)
  const WITNESS_FIRST := Evolution([], [WITNESS_ADD, WITNESS_ADD.(name := "c")], map[])
  const WITNESS_SECOND := Evolution([], [WITNESS_ADD.(name := "d")], map[])

  /** Three operations on a fresh table after which one schema holds the same field id twice:
      add two columns, append a batch of one column, add a column. */
  lemma {:induction false} ReusedIdWitness(cfg: Config, env: Env)
    ensures var t0 := Table(map[], NewMetadata(2, [], map[], 0));
      var ops := [Evolve(WITNESS_FIRST, 1), Commit(WITNESS_UPDATE, env), Evolve(WITNESS_SECOND, 2)];
      !UniqueIds(CurrentFields(Fold(cfg, t0, ops).meta))
  {
    var t0 := Table(map[], NewMetadata(2, [], map[], 0));
    var op1, op2, op3 := Evolve(WITNESS_FIRST, 1), Commit(WITNESS_UPDATE, env), Evolve(WITNESS_SECOND, 2);
    FoldThree(cfg, t0, op1, op2, op3);
    NewMetadataGood(2, [], map[], 0);
    GoodIsNumbered(t0.meta);
    EvolvedFields(t0.meta, WITNESS_FIRST, 1);
    EvolvedId(t0.meta, WITNESS_FIRST, 1);
    hide CommittedMetadata, EvolvedMetadata, CommitObjects, Fold, Good, FindSchema, CurrentFields, UniqueIds, Numbered;
    var m1 := EvolvedMetadata(t0.meta, WITNESS_FIRST, 1).value;
    assert CurrentFields(m1)[1].id == 2;
    UpdateThenEvolve(cfg, m1, WITNESS_UPDATE, env, WITNESS_SECOND, 2);
  }

  lemma {:induction false} EvolvedId(meta: Metadata, e: Evolution, now: int)
    requires EvolvedMetadata(meta, e, now).Ok?
    ensures EvolvedMetadata(meta, e, now).value.currentSchemaId == meta.currentSchemaId + 1
  {
  }

  lemma {:induction false} FoldThree(cfg: Config, t: Table, a: Op, b: Op, c: Op)
    ensures Fold(cfg, t, [a, b, c]) == ApplyOp(cfg, ApplyOp(cfg, ApplyOp(cfg, t, a), b), c)
  {
    hide ApplyOp;
    assert [a, b, c][..2] == [a, b] && [a, b][..1] == [a] && [a][..0] == [];
    assert Fold(cfg, t, [a]) == ApplyOp(cfg, t, a);
    assert Fold(cfg, t, [a, b]) == ApplyOp(cfg, ApplyOp(cfg, t, a), b);
  }

  ghost predicate UniqueNames(fields: seq<Field>) {
    forall i, j :: 0 <= i < j < |fields| ==> fields[i].name != fields[j].name
  }

  lemma {:induction false} IdOfColumn(fields: seq<Field>, c: nat)
    requires c < |fields| && UniqueNames(fields)
    ensures IdByName(fields, fields[c].name) == Some(fields[c].id)
  {
    if c < |fields| - 1 {
      IdOfColumn(fields[..|fields| - 1], c);
    }
  }

  lemma {:induction false} TypeOfColumn(fields: seq<Field>, c: nat)
    requires c < |fields| && UniqueIds(fields)
    ensures SourceType(fields, fields[c].id) == fields[c].fieldType
  {
    if c > 0 {
      TypeOfColumn(fields[1..], c - 1);
    }
  }

  /** The first real schema replaces the bootstrap one: every partition field whose column is
      in it then points at that column, wherever it landed, and takes its type. */
  lemma {:induction false} UpdateRemapsSpec(cfg: Config, meta: Metadata, snap: NewSnapshot, env: Env, i: nat, k: nat, c: nat)
    requires |meta.schemas| == 1 && meta.schemas[0].id == meta.currentSchemaId && snap.schemaUpdate.Some?
    requires UniqueIds(snap.schemaUpdate.value.fields) && UniqueNames(snap.schemaUpdate.value.fields)
    requires i < |meta.partitionSpecs| && k < |meta.partitionSpecs[i].fields|
    requires c < |snap.schemaUpdate.value.fields|
    requires meta.partitionSpecs[i].fields[k].name == snap.schemaUpdate.value.fields[c].name
    ensures var m := CommittedMetadata(cfg, meta, snap, env);
      && |m.partitionSpecs| == |meta.partitionSpecs|
      && |m.partitionSpecs[i].fields| == |meta.partitionSpecs[i].fields|
      && var r := ResolveField(CurrentFields(m), m.partitionSpecs[i].fields[k]);
      && r.name == meta.partitionSpecs[i].fields[k].name
      && r.sourceId == snap.schemaUpdate.value.fields[c].id
      && r.sourceType == snap.schemaUpdate.value.fields[c].fieldType
  {
    hide CommittedMetadata;
    var u, m := snap.schemaUpdate.value, CommittedMetadata(cfg, meta, snap, env);
    UpdateFacts(cfg, meta, snap, env);
    IdOfColumn(u.fields, c);
    TypeOfColumn(u.fields, c);
    assert m.schemas == [meta.schemas[0].(fields := u.fields)];
    assert m.partitionSpecs[i].fields[k] == RemapField(u, meta.partitionSpecs[i].fields[k]);
  }
}
