/** Restoring the same lines twice: exactly when the second time is accepted and changes nothing. */
module RestoreTwice {
  import opened Common
  import opened TableOrder
  import opened Tables
  import opened Backup
  import opened Upserts
  import opened TableTwice

  /** The rows of a batch name the columns of the first record, and the id. */
  lemma BatchIsUniform(codec: Codec, made: Generated, lines: seq<Line>, t: TableName)
    requires CellsOf(lines, t) != []
    ensures BatchRows(codec, made, lines, t) != []
    ensures Uniform(BatchRows(codec, made, lines, t), CellsOf(lines, t)[0].Keys + {Id})
  {
  }

  /** A batch that brings its ids does not depend on the keys the database would make up. */
  lemma SameBatch(codec: Codec, made: Generated, made': Generated, lines: seq<Line>, t: TableName)
    requires CellsOf(lines, t) != [] && Id in CellsOf(lines, t)[0]
    ensures BatchRows(codec, made, lines, t) == BatchRows(codec, made', lines, t)
  {
  }

  // ---- one batch ----

  /** What a batch that succeeds says about its rows and leaves in the table. */
  lemma BatchIs(schema: Schema, tenant: Value, db: Db, t: TableName, rows: seq<Row>, size: nat)
    requires IsDb(schema, db) && t in db && size > 0
    requires UpsertBatch(schema, tenant, db, t, rows, size).Some?
    ensures StatementsDistinct(rows, size) && PutAll(schema.defs[t], tenant, db[t], rows).Some?
    ensures forall r :: r in rows ==> Id in r && Fits(schema.defs[t], tenant, r)
    ensures UpsertBatch(schema, tenant, db, t, rows, size).value ==
            db[t := Upserted(schema.defs[t].blank, db[t], rows)]
    ensures PutAll(schema.defs[t], tenant, db[t], rows).value == Upserted(schema.defs[t].blank, db[t], rows)
  {
    BatchIsRowByRow(schema, tenant, db, t, rows, size);
    PutAllIsUpserted(schema.defs[t], tenant, db[t], rows);
  }

  lemma BatchGrows(schema: Schema, tenant: Value, db: Db, t: TableName, rows: seq<Row>, size: nat, p: TableName)
    requires IsDb(schema, db) && t in db && p in db && size > 0
    requires UpsertBatch(schema, tenant, db, t, rows, size).Some?
    ensures db[p].Keys <= UpsertBatch(schema, tenant, db, t, rows, size).value[p].Keys
    ensures p != t ==> db[p] == UpsertBatch(schema, tenant, db, t, rows, size).value[p]
  {
    BatchIs(schema, tenant, db, t, rows, size);
    forall k | k in db[t] ensures k in Upserted(schema.defs[t].blank, db[t], rows) {
      UpsertedGrows(schema.defs[t].blank, db[t], rows, k);
    }
  }

  /** A batch of uniform rows put again where it was put before, in a database that has changed
      elsewhere: refused, or accepted without any change. */
  lemma BatchTwice(schema: Schema, tenant: Value, db: Db, final: Db, t: TableName, rows: seq<Row>, columns: set<Column>)
    requires IsDb(schema, db) && IsDb(schema, final) && t in db && Uniform(rows, columns)
    requires UpsertBatch(schema, tenant, db, t, rows, BATCH_SIZE).Some?
    requires final[t] == UpsertBatch(schema, tenant, db, t, rows, BATCH_SIZE).value[t]
    ensures UpsertBatch(schema, tenant, final, t, rows, BATCH_SIZE) ==
            if Settled(schema.defs[t], db[t], rows, |rows|) then Some(final) else None
  {
    BatchIs(schema, tenant, db, t, rows, BATCH_SIZE);
    BatchOver(schema, tenant, db[t], final, t, rows, columns);
  }

  lemma BatchOver(
    schema: Schema, tenant: Value, was: Rows, final: Db, t: TableName, rows: seq<Row>, columns: set<Column>)
    requires IsDb(schema, final) && t in final && Uniform(rows, columns) && StatementsDistinct(rows, BATCH_SIZE)
    requires PutAll(schema.defs[t], tenant, was, rows) == Some(final[t])
    ensures UpsertBatch(schema, tenant, final, t, rows, BATCH_SIZE) ==
            if Settled(schema.defs[t], was, rows, |rows|) then Some(final) else None
  {
    BatchAgain(schema.defs[t], tenant, was, rows, columns);
    BatchIsRowByRow(schema, tenant, final, t, rows, BATCH_SIZE);
    assert final[t := final[t]] == final;
  }

  lemma DistinctBatchIsSettled(
    schema: Schema, tenant: Value, db: Db, t: TableName, rows: seq<Row>, columns: set<Column>)
    requires IsDb(schema, db) && t in db && Uniform(rows, columns) && DistinctIds(rows)
    requires UpsertBatch(schema, tenant, db, t, rows, BATCH_SIZE).Some?
    ensures Settled(schema.defs[t], db[t], rows, |rows|)
  {
    BatchIs(schema, tenant, db, t, rows, BATCH_SIZE);
    DistinctIsSettled(schema.defs[t], tenant, db[t], rows, columns);
  }

  // ---- one table of a restore ----

  /** Between two moments of a restore a table has only grown, or was not touched at all. */
  predicate GrewTo(earlier: Option<Db>, later: Option<Db>, p: TableName, touched: bool) {
    later.Some? && p in later.value ==>
      && earlier.Some? && p in earlier.value
      && earlier.value[p].Keys <= later.value[p].Keys
      && (!touched ==> earlier.value[p] == later.value[p])
  }

  lemma {:induction false} TableGrew(stages: seq<Option<Db>>, tables: seq<TableName>, i: nat, n: nat, p: TableName)
    requires |stages| == |tables| + 1 && i <= n <= |tables|
    requires forall k: nat :: k < |tables| ==> GrewTo(stages[k], stages[k + 1], p, p == tables[k])
    ensures GrewTo(stages[i], stages[n], p, p in tables[i..n])
  {
    if i < n {
      var m: nat :| m + 1 == n;
      TableGrew(stages, tables, i, m, p);
      SliceLast(tables, i, m);
      assert GrewTo(stages[m], stages[m + 1], p, p == tables[m]);
    }
  }

  lemma TableGrows(schema: Schema, codec: Codec, made: Generated, tenant: Value, db: Db, lines: seq<Line>,
                   tables: seq<TableName>, i: nat, p: TableName)
    requires IsDb(schema, db) && (forall t :: t in tables ==> t in db) && i < |tables|
    ensures GrewTo(RestoreTables(schema, codec, made, tenant, db, lines, tables[..i]),
                   RestoreTables(schema, codec, made, tenant, db, lines, tables[..i + 1]), p, p == tables[i])
  {
    RestoreStep(schema, codec, made, tenant, db, lines, tables, i);
    var half, t := RestoreTables(schema, codec, made, tenant, db, lines, tables[..i]), tables[i];
    var rows := BatchRows(codec, made, lines, t);
    if half.Some? && p in half.value && UpsertBatch(schema, tenant, half.value, t, rows, BATCH_SIZE).Some? {
      BatchGrows(schema, tenant, half.value, t, rows, BATCH_SIZE, p);
    }
  }

  /** Between two points of the restore. */
  lemma GrowsBetween(schema: Schema, codec: Codec, made: Generated, tenant: Value, db: Db, lines: seq<Line>,
                     tables: seq<TableName>, i: nat, n: nat, p: TableName)
    requires IsDb(schema, db) && (forall t :: t in tables ==> t in db) && i <= n <= |tables|
    ensures GrewTo(RestoreTables(schema, codec, made, tenant, db, lines, tables[..i]),
                   RestoreTables(schema, codec, made, tenant, db, lines, tables[..n]), p, p in tables[i..n])
  {
    var stages := seq(|tables| + 1, k requires 0 <= k <= |tables| =>
      RestoreTables(schema, codec, made, tenant, db, lines, tables[..k]));
    forall k: nat | k < |tables| ensures GrewTo(stages[k], stages[k + 1], p, p == tables[k]) {
      TableGrows(schema, codec, made, tenant, db, lines, tables, k, p);
    }
    TableGrew(stages, tables, i, n, p);
  }

  /** One table of a restore: as it was at the start before its batch, and as the batch has left it at
      the end. */
  lemma BatchOfTable(schema: Schema, codec: Codec, made: Generated, tenant: Value, db: Db, lines: seq<Line>,
                     tables: seq<TableName>, i: nat)
    requires IsDb(schema, db) && (forall t :: t in tables ==> t in db) && i < |tables| && Distinct(tables)
    requires RestoreTables(schema, codec, made, tenant, db, lines, tables).Some?
    ensures RestoreTables(schema, codec, made, tenant, db, lines, tables[..i]).Some?
    ensures var t, final := tables[i], RestoreTables(schema, codec, made, tenant, db, lines, tables).value;
            var before := RestoreTables(schema, codec, made, tenant, db, lines, tables[..i]).value;
            var after := UpsertBatch(schema, tenant, before, t, BatchRows(codec, made, lines, t), BATCH_SIZE);
            before[t] == db[t] && after.Some? && after.value[t] == final[t]
  {
    var t := tables[i];
    RestoreStep(schema, codec, made, tenant, db, lines, tables, i);
    GrowsBetween(schema, codec, made, tenant, db, lines, tables, i + 1, |tables|, t);
    GrowsBetween(schema, codec, made, tenant, db, lines, tables, i, i + 1, t);
    GrowsBetween(schema, codec, made, tenant, db, lines, tables, 0, i, t);
    WholeSlice(tables);
    assert tables[..0] == [] && t !in tables[i + 1..|tables|] && t !in tables[0..i];
  }

  // ---- the condition ----

  /** The first record of every table brings an id: a reader of the stream can check it. */
  predicate HaveIds(lines: seq<Line>, tables: seq<TableName>) {
    forall t :: t in tables && CellsOf(lines, t) != [] ==> Id in CellsOf(lines, t)[0]
  }

  /** No id comes up twice in a table. */
  predicate OnceEach(codec: Codec, made: Generated, lines: seq<Line>, tables: seq<TableName>) {
    forall t :: t in tables ==> DistinctIds(BatchRows(codec, made, lines, t))
  }

  predicate TableSettled(schema: Schema, codec: Codec, made: Generated, db: Db, lines: seq<Line>, t: TableName)
    requires t in db && t in schema.defs
  {
    var rows := BatchRows(codec, made, lines, t);
    (forall r :: r in rows ==> Id in r) && Settled(schema.defs[t], db[t], rows, |rows|)
  }

  /** No record has, when it comes up, a unique key that an id which comes up only later ends up with. */
  predicate AllSettled(
    schema: Schema, codec: Codec, made: Generated, db: Db, lines: seq<Line>, tables: seq<TableName>)
  {
    forall t :: t in tables && t in db && t in schema.defs ==> TableSettled(schema, codec, made, db, lines, t)
  }

  lemma TableAgain(schema: Schema, codec: Codec, made: Generated, made': Generated, tenant: Value, db: Db, final: Db,
                   lines: seq<Line>, tables: seq<TableName>, i: nat)
    requires IsDb(schema, db) && (forall t :: t in tables ==> t in db && CellsOf(lines, t) != [])
    requires i < |tables| && Distinct(tables) && HaveIds(lines, tables)
    requires RestoreTables(schema, codec, made, tenant, db, lines, tables) == Some(final)
    ensures tables[i] in final &&
            UpsertBatch(schema, tenant, final, tables[i], BatchRows(codec, made', lines, tables[i]), BATCH_SIZE) ==
            if TableSettled(schema, codec, made, db, lines, tables[i]) then Some(final) else None
    ensures DistinctIds(BatchRows(codec, made, lines, tables[i])) ==>
            TableSettled(schema, codec, made, db, lines, tables[i])
  {
    var t := tables[i];
    BatchOfTable(schema, codec, made, tenant, db, lines, tables, i);
    var before := RestoreTables(schema, codec, made, tenant, db, lines, tables[..i]).value;
    var rows, columns := BatchRows(codec, made, lines, t), CellsOf(lines, t)[0].Keys + {Id};
    SameBatch(codec, made, made', lines, t);
    BatchIsUniform(codec, made, lines, t);
    BatchTwice(schema, tenant, before, final, t, rows, columns);
    if DistinctIds(rows) { DistinctBatchIsSettled(schema, tenant, before, t, rows, columns); }
  }

  lemma SettledTables(
    schema: Schema, codec: Codec, made: Generated, db: Db, lines: seq<Line>, tables: seq<TableName>, m: nat)
    requires m < |tables| && tables[m] in db && tables[m] in schema.defs
    ensures AllSettled(schema, codec, made, db, lines, tables[..m + 1]) <==>
            AllSettled(schema, codec, made, db, lines, tables[..m])
            && TableSettled(schema, codec, made, db, lines, tables[m])
  {
    SlicePlus(tables, m);
    assert forall t :: t in tables[..m + 1] <==> t in tables[..m] || t == tables[m];
  }

  lemma NoTableAgain(
    schema: Schema, codec: Codec, made: Generated, made': Generated, tenant: Value, db: Db, final: Db,
    lines: seq<Line>, tables: seq<TableName>)
    requires IsDb(schema, final)
    ensures RestoreTables(schema, codec, made', tenant, final, lines, tables[..0]) == Some(final)
    ensures AllSettled(schema, codec, made, db, lines, tables[..0])
  {
    assert tables[..0] == [];
  }

  lemma NextTableAgain(
    schema: Schema, codec: Codec, made: Generated, made': Generated, tenant: Value, db: Db, final: Db,
    lines: seq<Line>, tables: seq<TableName>, m: nat)
    requires IsDb(schema, db) && (forall t :: t in tables ==> t in db && CellsOf(lines, t) != [])
    requires m < |tables| && Distinct(tables) && HaveIds(lines, tables)
    requires RestoreTables(schema, codec, made, tenant, db, lines, tables) == Some(final)
    requires RestoreTables(schema, codec, made', tenant, final, lines, tables[..m]) ==
             if AllSettled(schema, codec, made, db, lines, tables[..m]) then Some(final) else None
    ensures RestoreTables(schema, codec, made', tenant, final, lines, tables[..m + 1]) ==
            if AllSettled(schema, codec, made, db, lines, tables[..m + 1]) then Some(final) else None
  {
    TableAgain(schema, codec, made, made', tenant, db, final, lines, tables, m);
    RestoreStep(schema, codec, made', tenant, final, lines, tables, m);
    SettledTables(schema, codec, made, db, lines, tables, m);
  }

  lemma TablesAgain(
    schema: Schema, codec: Codec, made: Generated, made': Generated, tenant: Value, db: Db, final: Db,
    lines: seq<Line>, tables: seq<TableName>)
    requires IsDb(schema, db) && (forall t :: t in tables ==> t in db && CellsOf(lines, t) != [])
    requires Distinct(tables) && HaveIds(lines, tables)
    requires RestoreTables(schema, codec, made, tenant, db, lines, tables) == Some(final)
    ensures RestoreTables(schema, codec, made', tenant, final, lines, tables) ==
            if AllSettled(schema, codec, made, db, lines, tables) then Some(final) else None
  {
    NoTableAgain(schema, codec, made, made', tenant, db, final, lines, tables);
    for m := 0 to |tables|
      invariant RestoreTables(schema, codec, made', tenant, final, lines, tables[..m]) ==
                if AllSettled(schema, codec, made, db, lines, tables[..m]) then Some(final) else None
    {
      NextTableAgain(schema, codec, made, made', tenant, db, final, lines, tables, m);
    }
    WholeSlice(tables);
  }

  // ---- the theorems ----

  lemma OnlySeenMatters(
    schema: Schema, codec: Codec, made: Generated, db: Db, lines: seq<Line>)
    requires IsSchema(schema)
    ensures HaveIds(lines, schema.topo) ==> HaveIds(lines, Seen(lines, schema.topo))
    ensures AllSettled(schema, codec, made, db, lines, schema.topo) <==>
            AllSettled(schema, codec, made, db, lines, Seen(lines, schema.topo))
  {
    SeenIsInOrder(lines, schema.topo);
    forall t | t in schema.topo && t !in Seen(lines, schema.topo) && t in db && t in schema.defs
      ensures TableSettled(schema, codec, made, db, lines, t)
    {
      assert BatchRows(codec, made, lines, t) == [];
    }
  }

  /** A stream that was accepted once and brings its ids, restored again over its own result: accepted
      without any change, or refused because a record has, when it comes up, a unique key that an id
      which comes up only later ends up with. */
  lemma SecondRestore(
    schema: Schema, codec: Codec, made: Generated, made': Generated, tenant: Value, db: Db, lines: seq<Line>)
    requires IsDb(schema, db) && HaveIds(lines, schema.topo)
    requires Restored(schema, codec, made, tenant, db, lines).Some?
    ensures Restored(schema, codec, made', tenant, Restored(schema, codec, made, tenant, db, lines).value, lines) ==
            if AllSettled(schema, codec, made, db, lines, schema.topo)
            then Restored(schema, codec, made, tenant, db, lines) else None
  {
    var order := Seen(lines, schema.topo);
    SeenIsInOrder(lines, schema.topo);
    InOrderIsDistinct(order, schema.topo);
    OnlySeenMatters(schema, codec, made, db, lines);
    var final := Restored(schema, codec, made, tenant, db, lines).value;
    TablesAgain(schema, codec, made, made', tenant, db, final, lines, order);
  }

  /** Running a restore again over its own result is accepted and changes nothing, for every stream
      that was accepted once, brings its ids and none of them twice - also one that no export wrote. */
  lemma RestoreIsIdempotent(
    schema: Schema, codec: Codec, made: Generated, made': Generated, tenant: Value, db: Db, lines: seq<Line>)
    requires IsDb(schema, db) && HaveIds(lines, schema.topo) && OnceEach(codec, made, lines, schema.topo)
    requires Restored(schema, codec, made, tenant, db, lines).Some?
    ensures Restored(schema, codec, made', tenant, Restored(schema, codec, made, tenant, db, lines).value, lines) ==
            Restored(schema, codec, made, tenant, db, lines)
  {
    var order := Seen(lines, schema.topo);
    SeenIsInOrder(lines, schema.topo);
    InOrderIsDistinct(order, schema.topo);
    var final := Restored(schema, codec, made, tenant, db, lines).value;
    forall t | t in order ensures TableSettled(schema, codec, made, db, lines, t) {
      var i: nat :| i < |order| && order[i] == t;
      TableAgain(schema, codec, made, made', tenant, db, final, lines, order, i);
    }
    OnlySeenMatters(schema, codec, made, db, lines);
    SecondRestore(schema, codec, made, made', tenant, db, lines);
  }

  // ---- streams without ids ----

  /** The keys the database would make up are new. */
  ghost predicate Fresh(db: Db, made: Generated) { forall t, i: nat :: t in db ==> made(t, i) !in db[t] }

  lemma {:induction false} UpsertedHas(blank: Row, rows: Rows, batch: seq<Row>, r: Row)
    requires (forall q :: q in batch ==> Id in q) && r in batch
    ensures r[Id] in Upserted(blank, rows, batch)
  {
    var front, last := batch[..|batch| - 1], batch[|batch| - 1];
    if r != last { UpsertedHas(blank, rows, front, r); }
  }

  /** A batch without ids brings a key of the database's making. */
  lemma MadeKeyArrives(schema: Schema, codec: Codec, made: Generated, tenant: Value, db: Db, lines: seq<Line>,
                       tables: seq<TableName>, i: nat)
    requires IsDb(schema, db) && (forall t :: t in tables ==> t in db) && i < |tables| && Distinct(tables)
    requires CellsOf(lines, tables[i]) != [] && Id !in CellsOf(lines, tables[i])[0]
    requires RestoreTables(schema, codec, made, tenant, db, lines, tables).Some?
    ensures made(tables[i], 0) in RestoreTables(schema, codec, made, tenant, db, lines, tables).value[tables[i]]
  {
    var t := tables[i];
    BatchOfTable(schema, codec, made, tenant, db, lines, tables, i);
    var rows := BatchRows(codec, made, lines, t);
    assert rows[0] in rows && rows[0][Id] == made(t, 0);
    var before := RestoreTables(schema, codec, made, tenant, db, lines, tables[..i]).value;
    BatchIs(schema, tenant, before, t, rows, BATCH_SIZE);
    UpsertedHas(schema.defs[t].blank, before[t], rows, rows[0]);
  }

  /** The whole condition, with fresh keys: a second restore is accepted and changes nothing exactly
      when the first record of every table brings an id and no record has, when it comes up, a unique
      key that an id which comes up only later ends up with. */
  lemma RestoreIsIdempotentIff(
    schema: Schema, codec: Codec, made: Generated, made': Generated, tenant: Value, db: Db, lines: seq<Line>)
    requires IsDb(schema, db) && Restored(schema, codec, made, tenant, db, lines).Some?
    requires Fresh(Restored(schema, codec, made, tenant, db, lines).value, made')
    ensures Restored(schema, codec, made', tenant, Restored(schema, codec, made, tenant, db, lines).value, lines) ==
            Restored(schema, codec, made, tenant, db, lines)
            <==> HaveIds(lines, schema.topo) && AllSettled(schema, codec, made, db, lines, schema.topo)
  {
    var final := Restored(schema, codec, made, tenant, db, lines).value;
    if HaveIds(lines, schema.topo) {
      SecondRestore(schema, codec, made, made', tenant, db, lines);
    } else {
      var order := Seen(lines, schema.topo);
      SeenIsInOrder(lines, schema.topo);
      InOrderIsDistinct(order, schema.topo);
      var t :| t in schema.topo && CellsOf(lines, t) != [] && Id !in CellsOf(lines, t)[0];
      var i :| 0 <= i < |order| && order[i] == t;
      if Restored(schema, codec, made', tenant, final, lines).Some? {
        MadeKeyArrives(schema, codec, made', tenant, final, lines, order, i);
      }
    }
  }
}
