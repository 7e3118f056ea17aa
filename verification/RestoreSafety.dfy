/** What holds of a restore of any lines, forged ones included. */
module RestoreSafety {
  import opened Common
  import opened TableOrder
  import opened Tables
  import opened Backup

  /** The rows of the other tenants are the same. */
  predicate SameForOthers(db: Db, db': Db, tenant: Value) {
    && db.Keys == db'.Keys
    && forall t :: t in db ==> WithoutTenant(db'[t], tenant) == WithoutTenant(db[t], tenant)
  }

  lemma {:induction false} PutAllKeepsOthers(def: TableDef, tenant: Value, rows: Rows, chunk: seq<Row>)
    requires PutAll(def, tenant, rows, chunk).Some?
    ensures WithoutTenant(PutAll(def, tenant, rows, chunk).value, tenant) == WithoutTenant(rows, tenant)
  {
    if chunk != [] {
      var front, r := chunk[..|chunk| - 1], chunk[|chunk| - 1];
      PutAllKeepsOthers(def, tenant, rows, front);
      var before := PutAll(def, tenant, rows, front).value;
      OwnedUpdate(before, tenant, r[Id], Merged(def.blank, before, r));
    }
  }

  lemma OwnedUpdate(before: Rows, tenant: Value, k: Value, row: Row)
    requires Owned(row, tenant) && (k in before ==> Owned(before[k], tenant))
    ensures WithoutTenant(before[k := row], tenant) == WithoutTenant(before, tenant)
  {
    assert k !in WithoutTenant(before, tenant);
  }

  lemma StatementKeepsOthers(schema: Schema, tenant: Value, db: Db, t: TableName, chunk: seq<Row>)
    requires IsDb(schema, db) && t in db && Statement(schema, tenant, db, t, chunk).Some?
    ensures SameForOthers(db, Statement(schema, tenant, db, t, chunk).value, tenant)
  {
    PutAllKeepsOthers(schema.defs[t], tenant, db[t], chunk);
  }

  lemma {:induction false} BatchKeepsOthers(
    schema: Schema, tenant: Value, db: Db, t: TableName, rows: seq<Row>, size: nat)
    requires IsDb(schema, db) && t in db && size > 0
    requires UpsertBatch(schema, tenant, db, t, rows, size).Some?
    ensures SameForOthers(db, UpsertBatch(schema, tenant, db, t, rows, size).value, tenant)
    decreases |rows|
  {
    if rows != [] {
      var n := Min(size, |rows|);
      StatementKeepsOthers(schema, tenant, db, t, rows[..n]);
      BatchKeepsOthers(schema, tenant, Statement(schema, tenant, db, t, rows[..n]).value, t, rows[n..], size);
    }
  }

  lemma {:induction false} TablesKeepOthers(
    schema: Schema, codec: Codec, made: Generated, tenant: Value, db: Db, lines: seq<Line>, tables: seq<TableName>)
    requires IsDb(schema, db) && forall t :: t in tables ==> t in db
    requires RestoreTables(schema, codec, made, tenant, db, lines, tables).Some?
    ensures SameForOthers(db, RestoreTables(schema, codec, made, tenant, db, lines, tables).value, tenant)
  {
    if tables != [] {
      var front, t := tables[..|tables| - 1], tables[|tables| - 1];
      TablesKeepOthers(schema, codec, made, tenant, db, lines, front);
      var before := RestoreTables(schema, codec, made, tenant, db, lines, front).value;
      BatchKeepsOthers(schema, tenant, before, t, BatchRows(codec, made, lines, t), BATCH_SIZE);
    }
  }

  /** Whatever the lines say and whatever keys the database makes up, a restore for one tenant never
      touches a row of another, writes no key material, and leaves no dangling reference. */
  lemma OtherTenantsAreUntouched(schema: Schema, codec: Codec, made: Generated, tenant: Value, db: Db, lines: seq<Line>)
    requires IsDb(schema, db)
    requires Restored(schema, codec, made, tenant, db, lines).Some?
    ensures SameForOthers(db, Restored(schema, codec, made, tenant, db, lines).value, tenant)
    ensures Closed(schema, Restored(schema, codec, made, tenant, db, lines).value)
    ensures forall t :: t in db && KeyMaterial(t) ==> Restored(schema, codec, made, tenant, db, lines).value[t] == db[t]
  {
    SeenIsInOrder(lines, schema.topo);
    TablesKeepOthers(schema, codec, made, tenant, db, lines, Seen(lines, schema.topo));
    forall t | t in db && KeyMaterial(t) ensures Restored(schema, codec, made, tenant, db, lines).value[t] == db[t] {
      AllowlistLeavesOutKeyMaterial(t);
      NoCells(lines, t);
      OnlyTheseTables(schema, codec, made, tenant, db, lines, Seen(lines, schema.topo), t);
    }
  }

  /** In the rows themselves: one of another tenant stays as it is, and what is new is the tenant's. */
  lemma OtherRowsStay(
    schema: Schema, codec: Codec, made: Generated, tenant: Value, db: Db, lines: seq<Line>, t: TableName, k: Value)
    requires IsDb(schema, db) && Restored(schema, codec, made, tenant, db, lines).Some? && t in db
    ensures t in schema.defs && TenantId in schema.defs[t].blank
    ensures var final := Restored(schema, codec, made, tenant, db, lines).value;
            && t in final
            && (k in db[t] && db[t][k][TenantId] != tenant ==> k in final[t] && final[t][k] == db[t][k])
            && (k in final[t] && k !in db[t] ==> final[t][k][TenantId] == tenant)
  {
    OtherTenantsAreUntouched(schema, codec, made, tenant, db, lines);
    var final := Restored(schema, codec, made, tenant, db, lines).value;
    assert WithoutTenant(final[t], tenant) == WithoutTenant(db[t], tenant);
    if k in db[t] && db[t][k][TenantId] != tenant { assert k in WithoutTenant(db[t], tenant); }
    if k in final[t] && final[t][k][TenantId] != tenant { assert k in WithoutTenant(final[t], tenant); }
  }

  lemma {:induction false} NoCells(lines: seq<Line>, t: TableName)
    requires !Restorable(t) && forall line :: line in lines ==> Acceptable(line)
    ensures CellsOf(lines, t) == []
  {
    if lines != [] {
      assert lines[|lines| - 1] in lines;
      NoCells(lines[..|lines| - 1], t);
    }
  }

  lemma {:induction false} BatchKeepsTables(
    schema: Schema, tenant: Value, db: Db, t: TableName, rows: seq<Row>, size: nat, u: TableName)
    requires IsDb(schema, db) && t in db && size > 0
    requires UpsertBatch(schema, tenant, db, t, rows, size).Some?
    ensures u in db && u != t ==> UpsertBatch(schema, tenant, db, t, rows, size).value[u] == db[u]
    decreases |rows|
  {
    if rows != [] {
      var n := Min(size, |rows|);
      BatchKeepsTables(schema, tenant, Statement(schema, tenant, db, t, rows[..n]).value, t, rows[n..], size, u);
    }
  }

  lemma {:induction false} OnlyTheseTables(
    schema: Schema, codec: Codec, made: Generated, tenant: Value, db: Db, lines: seq<Line>,
    tables: seq<TableName>, u: TableName)
    requires IsDb(schema, db) && forall t :: t in tables ==> t in db
    requires RestoreTables(schema, codec, made, tenant, db, lines, tables).Some?
    ensures u in db && u !in tables ==> RestoreTables(schema, codec, made, tenant, db, lines, tables).value[u] == db[u]
  {
    if tables != [] {
      var front, t := tables[..|tables| - 1], tables[|tables| - 1];
      OnlyTheseTables(schema, codec, made, tenant, db, lines, front, u);
      var before := RestoreTables(schema, codec, made, tenant, db, lines, front).value;
      BatchKeepsTables(schema, tenant, before, t, BatchRows(codec, made, lines, t), BATCH_SIZE, u);
    }
  }
}
