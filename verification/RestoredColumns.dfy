/** What a restore leaves in the tables, column by column, told from the lines of the stream. */
module RestoredColumns {
  import opened Common
  import opened TableOrder
  import opened Tables
  import opened Upserts
  import opened Backup
  import opened TableTwice
  import opened RestoreTwice

  /** What a record says about a column: its decoded field, or NULL without one. */
  function Decoded(codec: Codec, cells: Cells, c: Column): Value {
    if c in cells then codec.decode(cells[c]) else Null
  }

  /** The first line of a table decides which columns the statements name. */
  predicate IsFirst(lines: seq<Line>, t: TableName, m: nat) {
    m < |lines| && Belongs(lines[m], t) && forall j :: 0 <= j < m ==> !Belongs(lines[j], t)
  }

  /** How many lines of the table come before. */
  function Earlier(lines: seq<Line>, t: TableName, n: nat): nat
    requires n <= |lines|
  {
    if n == 0 then 0 else Earlier(lines, t, n - 1) + if Belongs(lines[n - 1], t) then 1 else 0
  }

  /** The id of the row a line stands for: its own, or one the database makes up. */
  function KeyOf(codec: Codec, made: Generated, lines: seq<Line>, t: TableName, m: nat, n: nat): Value
    requires m < |lines| && n < |lines| && lines[m].Record? && lines[n].Record?
  {
    if Id in lines[m].cells then Decoded(codec, lines[n].cells, Id) else made(t, Earlier(lines, t, n))
  }

  // ---- lines and records ----

  lemma {:induction false} RecordOfLine(lines: seq<Line>, t: TableName, n: nat)
    requires n < |lines| && Belongs(lines[n], t)
    ensures Earlier(lines, t, n) < |CellsOf(lines, t)|
    ensures CellsOf(lines, t)[Earlier(lines, t, n)] == lines[n].cells
  {
    var front := lines[..|lines| - 1];
    if n < |front| {
      RecordOfLine(front, t, n);
      SameEarlier(front, lines, t, n);
    } else {
      RecordsAreCounted(front, t);
      SameEarlier(front, lines, t, n);
    }
  }

  lemma {:induction false} SameEarlier(front: seq<Line>, lines: seq<Line>, t: TableName, n: nat)
    requires front <= lines && n <= |front|
    ensures Earlier(front, t, n) == Earlier(lines, t, n)
  {
    if n > 0 { SameEarlier(front, lines, t, n - 1); }
  }

  lemma {:induction false} RecordsAreCounted(lines: seq<Line>, t: TableName)
    ensures |CellsOf(lines, t)| == Earlier(lines, t, |lines|)
  {
    if lines != [] {
      var front := lines[..|lines| - 1];
      RecordsAreCounted(front, t);
      SameEarlier(front, lines, t, |front|);
    }
  }

  lemma {:induction false} LineOfRecord(lines: seq<Line>, t: TableName, p: nat) returns (n: nat)
    requires p < |CellsOf(lines, t)|
    ensures n < |lines| && Belongs(lines[n], t) && Earlier(lines, t, n) == p
  {
    var front := lines[..|lines| - 1];
    if p < |CellsOf(front, t)| {
      n := LineOfRecord(front, t, p);
      SameEarlier(front, lines, t, n);
    } else {
      n := |front|;
      RecordsAreCounted(front, t);
      SameEarlier(front, lines, t, n);
    }
  }

  lemma {:induction false} EarlierGrows(lines: seq<Line>, t: TableName, i: nat, n: nat)
    requires i <= n <= |lines|
    ensures Earlier(lines, t, i) <= Earlier(lines, t, n)
    ensures i < n && Belongs(lines[i], t) ==> Earlier(lines, t, i) < Earlier(lines, t, n)
  {
    if i < n { EarlierGrows(lines, t, i, n - 1); }
  }

  lemma FirstIsFirst(lines: seq<Line>, t: TableName, m: nat)
    requires IsFirst(lines, t, m)
    ensures CellsOf(lines, t) != [] && CellsOf(lines, t)[0] == lines[m].cells
  {
    RecordOfLine(lines, t, m);
    NoneEarlier(lines, t, m);
  }

  lemma {:induction false} NoneEarlier(lines: seq<Line>, t: TableName, n: nat)
    requires n <= |lines| && forall j :: 0 <= j < n ==> !Belongs(lines[j], t)
    ensures Earlier(lines, t, n) == 0
  {
    if n > 0 { NoneEarlier(lines, t, n - 1); }
  }

  // ---- rows ----

  lemma RowOfLine(codec: Codec, made: Generated, lines: seq<Line>, t: TableName, m: nat, n: nat)
    requires IsFirst(lines, t, m) && n < |lines| && Belongs(lines[n], t)
    ensures var rows, p := BatchRows(codec, made, lines, t), Earlier(lines, t, n);
            && p < |rows| && rows[p].Keys == lines[m].cells.Keys + {Id}
            && rows[p][Id] == KeyOf(codec, made, lines, t, m, n)
            && forall c :: c in lines[m].cells && c != Id ==> rows[p][c] == Decoded(codec, lines[n].cells, c)
  {
    FirstIsFirst(lines, t, m);
    RecordOfLine(lines, t, n);
  }

  /** The last row of a key is that of the last line that stands for it. */
  lemma {:induction false} LastRow(batch: seq<Row>, p: nat, k: Value)
    requires p < |batch| && Id in batch[p] && batch[p][Id] == k
    requires forall q :: p < q < |batch| ==> !(Id in batch[q] && batch[q][Id] == k)
    ensures Last(batch, k) == batch[p]
  {
    if p < |batch| - 1 { LastRow(batch[..|batch| - 1], p, k); }
  }

  lemma LastRowOfLine(codec: Codec, made: Generated, lines: seq<Line>, t: TableName, m: nat, n: nat)
    requires IsFirst(lines, t, m) && n < |lines| && Belongs(lines[n], t)
    requires forall j :: n < j < |lines| && Belongs(lines[j], t) ==>
               KeyOf(codec, made, lines, t, m, j) != KeyOf(codec, made, lines, t, m, n)
    ensures var rows, p := BatchRows(codec, made, lines, t), Earlier(lines, t, n);
            p < |rows| && Last(rows, KeyOf(codec, made, lines, t, m, n)) == rows[p]
  {
    var rows, p, k := BatchRows(codec, made, lines, t), Earlier(lines, t, n), KeyOf(codec, made, lines, t, m, n);
    RowOfLine(codec, made, lines, t, m, n);
    forall q | p < q < |rows| ensures !(Id in rows[q] && rows[q][Id] == k) {
      var j := LineOfRecord(lines, t, q);
      RowOfLine(codec, made, lines, t, m, j);
      if j <= n { EarlierGrows(lines, t, j, n); }
    }
    LastRow(rows, p, k);
  }

  lemma BroughtByLine(codec: Codec, made: Generated, lines: seq<Line>, t: TableName, m: nat, k: Value)
    requires IsFirst(lines, t, m)
    ensures Brings(BatchRows(codec, made, lines, t), k) <==>
            exists n :: 0 <= n < |lines| && Belongs(lines[n], t) && KeyOf(codec, made, lines, t, m, n) == k
  {
    var rows := BatchRows(codec, made, lines, t);
    if Brings(rows, k) {
      var r :| r in rows && Id in r && r[Id] == k;
      var p :| 0 <= p < |rows| && rows[p] == r;
      var n := LineOfRecord(lines, t, p);
      RowOfLine(codec, made, lines, t, m, n);
    }
    if n :| 0 <= n < |lines| && Belongs(lines[n], t) && KeyOf(codec, made, lines, t, m, n) == k {
      RowOfLine(codec, made, lines, t, m, n);
      assert rows[Earlier(lines, t, n)] in rows;
    }
  }

  /** The batch of a table in a restore that is accepted, and the table it leaves. */
  lemma TableOfStream(
    schema: Schema, codec: Codec, made: Generated, tenant: Value, db: Db, lines: seq<Line>, t: TableName, k: Value)
    requires IsDb(schema, db) && schema.topo == BACKUPABLE && CellsOf(lines, t) != []
    requires Restored(schema, codec, made, tenant, db, lines).Some?
    ensures t in db && t in schema.defs
    ensures var final := Restored(schema, codec, made, tenant, db, lines).value;
            var rows := BatchRows(codec, made, lines, t);
            && t in final
            && (k in final[t] <==> k in db[t] || Brings(rows, k))
            && (Brings(rows, k) ==> final[t][k] == Base(schema.defs[t].blank, db[t], k) + Last(rows, k))
            && (!Brings(rows, k) && k in db[t] ==> final[t][k] == db[t][k])
  {
    var order, rows := Seen(lines, schema.topo), BatchRows(codec, made, lines, t);
    SomeLineOf(lines, t);
    SeenIsInOrder(lines, schema.topo);
    InOrderIsDistinct(order, schema.topo);
    var i: nat :| i < |order| && order[i] == t;
    BatchOfTable(schema, codec, made, tenant, db, lines, order, i);
    var before := RestoreTables(schema, codec, made, tenant, db, lines, order[..i]).value;
    BatchIs(schema, tenant, before, t, rows, BATCH_SIZE);
    BatchIsUniform(codec, made, lines, t);
    UpsertedIs(schema.defs[t].blank, db[t], rows, CellsOf(lines, t)[0].Keys + {Id}, k);
  }

  lemma SomeLineOf(lines: seq<Line>, t: TableName)
    requires CellsOf(lines, t) != [] && forall line :: line in lines ==> Acceptable(line)
    ensures t in BACKUPABLE
  {
    var n := LineOfRecord(lines, t, 0);
    assert lines[n] in lines;
    AllowlistLeavesOutKeyMaterial(t);
  }

  // ---- the theorems ----

  /** After a restore, the row of the last record with its id: a column of the table's first record has
      what this record says, NULL if it says nothing; any other column keeps the value it had in the
      database, or has the default if the id is new. */
  lemma ColumnsOfARecord(
    schema: Schema, codec: Codec, made: Generated, tenant: Value, db: Db, lines: seq<Line>, t: TableName,
    m: nat, n: nat, c: Column)
    requires IsDb(schema, db) && schema.topo == BACKUPABLE
    requires Restored(schema, codec, made, tenant, db, lines).Some?
    requires IsFirst(lines, t, m) && n < |lines| && Belongs(lines[n], t)
    requires forall j :: n < j < |lines| && Belongs(lines[j], t) ==>
               KeyOf(codec, made, lines, t, m, j) != KeyOf(codec, made, lines, t, m, n)
    ensures t in db && t in schema.defs
    ensures var final := Restored(schema, codec, made, tenant, db, lines).value;
            var k := KeyOf(codec, made, lines, t, m, n);
            && t in final && k in final[t]
            && IsColumnOf(schema.defs[t].blank, db[t], k, codec, lines[m].cells, lines[n].cells, final[t][k], c)
  {
    var k, p := KeyOf(codec, made, lines, t, m, n), Earlier(lines, t, n);
    RowOfLine(codec, made, lines, t, m, n);
    RowAfterLine(schema, codec, made, tenant, db, lines, t, m, n);
    ColumnsFit(schema, codec, made, tenant, db, lines, t, m);
    BaseHasAllColumns(schema, db, t, k);
    ColumnOfOverlay(schema.defs[t].blank, db[t], k, codec, lines[m].cells, lines[n].cells,
                    BatchRows(codec, made, lines, t)[p], c);
  }

  /** A column of a row after the restore: `first` is the table's first record, `cells` the row's. */
  predicate IsColumnOf(
    defaults: Row, was: Rows, k: Value, codec: Codec, first: Cells, cells: Cells, row: Row, c: Column)
  {
    if c !in defaults then c !in row
    else
      c in row &&
      if c == Id then row[c] == k
      else if c in first then row[c] == Decoded(codec, cells, c)
      else if k in was then c in was[k] && row[c] == was[k][c]
      else row[c] == defaults[c]
  }

  lemma ColumnOfOverlay(
    blank: Row, was: Rows, k: Value, codec: Codec, first: Cells, cells: Cells, r: Row, c: Column)
    requires Base(blank, was, k).Keys == blank.Keys && first.Keys <= blank.Keys && Id in blank
    requires r.Keys == first.Keys + {Id} && r[Id] == k
    requires forall x :: x in first && x != Id ==> r[x] == Decoded(codec, cells, x)
    ensures IsColumnOf(blank, was, k, codec, first, cells, Base(blank, was, k) + r, c)
  {
  }

  lemma BaseHasAllColumns(schema: Schema, db: Db, t: TableName, k: Value)
    requires IsDb(schema, db) && t in db
    ensures t in schema.defs && Base(schema.defs[t].blank, db[t], k).Keys == schema.defs[t].blank.Keys
  {
  }

  lemma RowAfterLine(
    schema: Schema, codec: Codec, made: Generated, tenant: Value, db: Db, lines: seq<Line>, t: TableName,
    m: nat, n: nat)
    requires IsDb(schema, db) && schema.topo == BACKUPABLE
    requires Restored(schema, codec, made, tenant, db, lines).Some?
    requires IsFirst(lines, t, m) && n < |lines| && Belongs(lines[n], t)
    requires forall j :: n < j < |lines| && Belongs(lines[j], t) ==>
               KeyOf(codec, made, lines, t, m, j) != KeyOf(codec, made, lines, t, m, n)
    ensures t in db && t in schema.defs
    ensures var final := Restored(schema, codec, made, tenant, db, lines).value;
            var k, rows := KeyOf(codec, made, lines, t, m, n), BatchRows(codec, made, lines, t);
            && Earlier(lines, t, n) < |rows| && t in final && k in final[t]
            && final[t][k] == Base(schema.defs[t].blank, db[t], k) + rows[Earlier(lines, t, n)]
  {
    var k, rows := KeyOf(codec, made, lines, t, m, n), BatchRows(codec, made, lines, t);
    FirstIsFirst(lines, t, m);
    RowOfLine(codec, made, lines, t, m, n);
    assert rows[Earlier(lines, t, n)] in rows;
    LastRowOfLine(codec, made, lines, t, m, n);
    TableOfStream(schema, codec, made, tenant, db, lines, t, k);
  }

  lemma ColumnsFit(
    schema: Schema, codec: Codec, made: Generated, tenant: Value, db: Db, lines: seq<Line>, t: TableName, m: nat)
    requires IsDb(schema, db) && schema.topo == BACKUPABLE && IsFirst(lines, t, m)
    requires Restored(schema, codec, made, tenant, db, lines).Some?
    ensures t in schema.defs && lines[m].cells.Keys <= schema.defs[t].blank.Keys && Id in schema.defs[t].blank
  {
    var order, rows := Seen(lines, schema.topo), BatchRows(codec, made, lines, t);
    FirstIsFirst(lines, t, m);
    SomeLineOf(lines, t);
    SeenIsInOrder(lines, schema.topo);
    InOrderIsDistinct(order, schema.topo);
    var i: nat :| i < |order| && order[i] == t;
    BatchOfTable(schema, codec, made, tenant, db, lines, order, i);
    var before := RestoreTables(schema, codec, made, tenant, db, lines, order[..i]).value;
    BatchIs(schema, tenant, before, t, rows, BATCH_SIZE);
    RowOfLine(codec, made, lines, t, m, m);
    assert rows[Earlier(lines, t, m)] in rows;
  }

  /** The rows after a restore are those there before and those of the records, and a row no record
      stands for is as it was. */
  lemma NoOtherRows(
    schema: Schema, codec: Codec, made: Generated, tenant: Value, db: Db, lines: seq<Line>, t: TableName,
    m: nat, k: Value)
    requires IsDb(schema, db) && schema.topo == BACKUPABLE && IsFirst(lines, t, m)
    requires Restored(schema, codec, made, tenant, db, lines).Some?
    ensures t in db
    ensures var final := Restored(schema, codec, made, tenant, db, lines).value;
            var brought := exists n ::
              0 <= n < |lines| && Belongs(lines[n], t) && KeyOf(codec, made, lines, t, m, n) == k;
            && t in final && (k in final[t] <==> k in db[t] || brought)
            && (k in db[t] && !brought ==> final[t][k] == db[t][k])
  {
    FirstIsFirst(lines, t, m);
    BroughtByLine(codec, made, lines, t, m, k);
    TableOfStream(schema, codec, made, tenant, db, lines, t, k);
  }

  /** In a restore that is accepted no id comes up twice among the same hundred records of a table. */
  lemma NoIdTwiceInAHundred(
    schema: Schema, codec: Codec, made: Generated, tenant: Value, db: Db, lines: seq<Line>, t: TableName,
    m: nat, i: nat, j: nat)
    requires IsDb(schema, db) && schema.topo == BACKUPABLE && IsFirst(lines, t, m)
    requires Restored(schema, codec, made, tenant, db, lines).Some?
    requires i < j < |lines| && Belongs(lines[i], t) && Belongs(lines[j], t)
    requires Earlier(lines, t, i) / 100 == Earlier(lines, t, j) / 100
    ensures KeyOf(codec, made, lines, t, m, i) != KeyOf(codec, made, lines, t, m, j)
  {
    var rows := BatchRows(codec, made, lines, t);
    StatementsOfTable(schema, codec, made, tenant, db, lines, t, m);
    StatementsDistinctIff(rows, BATCH_SIZE);
    RowOfLine(codec, made, lines, t, m, i);
    RowOfLine(codec, made, lines, t, m, j);
    EarlierGrows(lines, t, i, j);
    var blocks := Blocks(|rows|, BATCH_SIZE);
    assert blocks[Earlier(lines, t, i)] == blocks[Earlier(lines, t, j)];
  }

  lemma StatementsOfTable(
    schema: Schema, codec: Codec, made: Generated, tenant: Value, db: Db, lines: seq<Line>, t: TableName, m: nat)
    requires IsDb(schema, db) && schema.topo == BACKUPABLE && IsFirst(lines, t, m)
    requires Restored(schema, codec, made, tenant, db, lines).Some?
    ensures StatementsDistinct(BatchRows(codec, made, lines, t), BATCH_SIZE)
    ensures forall r :: r in BatchRows(codec, made, lines, t) ==> Id in r
  {
    var order := Seen(lines, schema.topo);
    FirstIsFirst(lines, t, m);
    SomeLineOf(lines, t);
    SeenIsInOrder(lines, schema.topo);
    InOrderIsDistinct(order, schema.topo);
    var i: nat :| i < |order| && order[i] == t;
    BatchOfTable(schema, codec, made, tenant, db, lines, order, i);
    var before := RestoreTables(schema, codec, made, tenant, db, lines, order[..i]).value;
    BatchIs(schema, tenant, before, t, BatchRows(codec, made, lines, t), BATCH_SIZE);
  }
}
