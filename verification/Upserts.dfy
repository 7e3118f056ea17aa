/** A batch is taken row by row: what the size of its statements has to do with it. */
module Upserts {
  import opened Common
  import opened TableOrder
  import opened Tables

  lemma DistinctParts(a: seq<Row>, b: seq<Row>)
    requires DistinctIds(a + b)
    ensures DistinctIds(a) && DistinctIds(b)
    ensures forall r :: r in b ==> !Touches(a, r[Id])
  {
    assert forall i :: 0 <= i < |a| ==> (a + b)[i] == a[i];
    assert forall i :: 0 <= i < |b| ==> (a + b)[|a| + i] == b[i];
    forall r | r in b ensures !Touches(a, r[Id]) {
      var j :| 0 <= j < |b| && b[j] == r;
      assert (a + b)[|a| + j] == r;
    }
  }

  lemma {:induction false} PutAllConcat(def: TableDef, tenant: Value, rows: Rows, a: seq<Row>, b: seq<Row>)
    ensures PutAll(def, tenant, rows, a + b) ==
            match PutAll(def, tenant, rows, a)
            case None => None
            case Some(half) => PutAll(def, tenant, half, b)
  {
    if b == [] {
      assert a + b == a;
    } else {
      assert (a + b)[..|a + b| - 1] == a + b[..|b| - 1];
      PutAllConcat(def, tenant, rows, a, b[..|b| - 1]);
    }
  }

  /** One statement for a + b does what a statement for a and one for b do. */
  lemma StatementSplits(schema: Schema, tenant: Value, db: Db, t: TableName, a: seq<Row>, b: seq<Row>)
    requires IsDb(schema, db) && t in db && DistinctIds(a + b)
    ensures Statement(schema, tenant, db, t, a + b) ==
            match Statement(schema, tenant, db, t, a)
            case None => None
            case Some(db') => Statement(schema, tenant, db', t, b)
  {
    DistinctParts(a, b);
    PutAllConcat(schema.defs[t], tenant, db[t], a, b);
    match PutAll(schema.defs[t], tenant, db[t], a) {
      case None =>
      case Some(half) => InTableTwice(db, t, half, PutAll(schema.defs[t], tenant, half, b));
    }
  }

  lemma InTableTwice(db: Db, t: TableName, first: Rows, second: Option<Rows>)
    ensures InTable(db[t := first], t, second) == InTable(db, t, second)
  {
    if second.Some? { OverwriteTwice(db, t, first, second.value); }
  }

  lemma OverwriteTwice(db: Db, t: TableName, first: Rows, second: Rows)
    ensures db[t := first][t := second] == db[t := second]
  {
  }

  /** No id comes up twice within one statement. */
  predicate StatementsDistinct(rows: seq<Row>, size: nat)
    requires size > 0
    decreases |rows|
  {
    rows == [] ||
    var n := Min(size, |rows|);
    DistinctIds(rows[..n]) && StatementsDistinct(rows[n..], size)
  }

  /** Any batch: refused if an id comes up twice in one statement, and otherwise what putting its rows
      one by one does. The size of the statements matters for nothing else. */
  lemma {:induction false} BatchIsRowByRow(
    schema: Schema, tenant: Value, db: Db, t: TableName, rows: seq<Row>, size: nat)
    requires IsDb(schema, db) && t in db && size > 0
    ensures UpsertBatch(schema, tenant, db, t, rows, size) ==
            if StatementsDistinct(rows, size) then InTable(db, t, PutAll(schema.defs[t], tenant, db[t], rows)) else None
    decreases |rows|
  {
    if rows == [] {
      assert db[t := db[t]] == db;
    } else {
      var n := Min(size, |rows|);
      SplitAt([], rows, n);
      PutAllConcat(schema.defs[t], tenant, db[t], rows[..n], rows[n..]);
      match Statement(schema, tenant, db, t, rows[..n]) {
        case None =>
        case Some(db') => RestIsRowByRow(schema, tenant, db, db', t, rows, n, size);
      }
    }
  }

  lemma RestIsRowByRow(
    schema: Schema, tenant: Value, db: Db, db': Db, t: TableName, rows: seq<Row>, n: nat, size: nat)
    requires IsDb(schema, db) && t in db && size > 0 && 0 < n <= |rows|
    requires Statement(schema, tenant, db, t, rows[..n]) == Some(db')
    ensures UpsertBatch(schema, tenant, db', t, rows[n..], size) ==
            if StatementsDistinct(rows[n..], size)
            then InTable(db, t, PutAll(schema.defs[t], tenant, db'[t], rows[n..])) else None
    decreases |rows|, 0
  {
    BatchIsRowByRow(schema, tenant, db', t, rows[n..], size);
    InTableTwice(db, t, db'[t], PutAll(schema.defs[t], tenant, db'[t], rows[n..]));
  }

  /** The number of the statement for each position. */
  function Blocks(length: nat, size: nat): seq<nat>
    requires size > 0
  {
    seq(length, i requires i >= 0 => i / size)
  }

  /** Two rows of the same statement have different ids. */
  predicate Apart(rows: seq<Row>, blocks: seq<nat>)
    requires |blocks| == |rows| && forall r :: r in rows ==> Id in r
  {
    forall i, j :: 0 <= i < j < |rows| && blocks[i] == blocks[j] ==> rows[i][Id] != rows[j][Id]
  }

  /** Read off the positions: an id may come up again, but only in another statement. */
  lemma {:induction false} StatementsDistinctIff(rows: seq<Row>, size: nat)
    requires size > 0 && forall r :: r in rows ==> Id in r
    ensures StatementsDistinct(rows, size) <==> Apart(rows, Blocks(|rows|, size))
    decreases |rows|
  {
    if rows != [] {
      var n := Min(size, |rows|);
      SplitAt([], rows, n);
      BlocksSplit(|rows|, size, n);
      SplitApart(rows, Blocks(|rows|, size), n);
      ShiftApart(rows[n..], Blocks(|rows|, size)[n..], Blocks(|rows| - n, size));
      StatementsDistinctIff(rows[n..], size);
    }
  }

  lemma BlocksSplit(length: nat, size: nat, n: nat)
    requires size > 0 && n == Min(size, length)
    ensures forall i :: 0 <= i < n ==> Blocks(length, size)[i] == 0
    ensures forall i :: 0 <= i < length - n ==> Blocks(length, size)[n..][i] == Blocks(length - n, size)[i] + 1
  {
    forall i | 0 <= i < n ensures Blocks(length, size)[i] == 0 { DivisionIsUnique(i, size, 0, i); }
    forall i | 0 <= i < length - n ensures Blocks(length, size)[n..][i] == Blocks(length - n, size)[i] + 1 {
      NextStatement(i, size);
    }
  }

  lemma NextStatement(i: nat, size: nat)
    requires size > 0
    ensures (i + size) / size == i / size + 1
  {
    DivisionIsUnique(i + size, size, i / size + 1, i % size);
  }

  lemma SplitApart(rows: seq<Row>, blocks: seq<nat>, n: nat)
    requires |blocks| == |rows| && n <= |rows|
    requires forall r :: r in rows ==> Id in r
    requires forall i :: 0 <= i < n ==> blocks[i] == 0
    requires forall i :: 0 <= i < |rows| - n ==> blocks[n..][i] > 0
    ensures forall r :: r in rows[n..] ==> Id in r
    ensures Apart(rows, blocks) <==> DistinctIds(rows[..n]) && Apart(rows[n..], blocks[n..])
  {
    SplitAt([], rows, n);
    forall i | n <= i < |rows| ensures blocks[i] > 0 && rows[i] == rows[n..][i - n] && blocks[i] == blocks[n..][i - n] {
      assert blocks[n..][i - n] > 0;
    }
    if Apart(rows, blocks) {
      forall i, j | 0 <= i < j < |rows| - n && blocks[n..][i] == blocks[n..][j]
        ensures rows[n..][i][Id] != rows[n..][j][Id]
      {
        assert rows[n + i] == rows[n..][i] && rows[n + j] == rows[n..][j];
      }
    }
    if DistinctIds(rows[..n]) && Apart(rows[n..], blocks[n..]) {
      forall i, j | 0 <= i < j < |rows| && blocks[i] == blocks[j] ensures rows[i][Id] != rows[j][Id] {
        if j < n { assert rows[..n][i] == rows[i] && rows[..n][j] == rows[j]; }
      }
    }
  }

  lemma ShiftApart(rows: seq<Row>, a: seq<nat>, b: seq<nat>)
    requires |a| == |rows| == |b| && (forall r :: r in rows ==> Id in r)
    requires forall i :: 0 <= i < |rows| ==> a[i] == b[i] + 1
    ensures Apart(rows, a) <==> Apart(rows, b)
  {
  }

  lemma {:induction false} DistinctInStatements(rows: seq<Row>, size: nat)
    requires DistinctIds(rows) && size > 0
    ensures StatementsDistinct(rows, size)
    decreases |rows|
  {
    if rows != [] {
      var n := Min(size, |rows|);
      SplitAt([], rows, n);
      DistinctParts(rows[..n], rows[n..]);
      DistinctInStatements(rows[n..], size);
    }
  }

  /** For rows with distinct keys, statements of any size - the source's hundred, or one a row - do
      together what a single statement for the whole batch would do, also when that fails. */
  lemma ChunksDoNotMatter(schema: Schema, tenant: Value, db: Db, t: TableName, rows: seq<Row>, size: nat)
    requires IsDb(schema, db) && t in db && size > 0 && DistinctIds(rows)
    ensures UpsertBatch(schema, tenant, db, t, rows, size) == Statement(schema, tenant, db, t, rows)
  {
    BatchIsRowByRow(schema, tenant, db, t, rows, size);
    DistinctInStatements(rows, size);
  }

  /** A row of the whole batch is already there after its first part, or still as it was. */
  lemma PartHolds(blank: Row, rows: Rows, a: seq<Row>, b: seq<Row>, k: Value)
    requires DistinctIds(a + b)
    ensures DistinctIds(a) && DistinctIds(b)
    requires k in Upserted(blank, rows, a)
    ensures k in Upserted(blank, rows, a + b)
    ensures || Upserted(blank, rows, a + b)[k] == Upserted(blank, rows, a)[k]
            || (k in rows && Upserted(blank, rows, a)[k] == rows[k])
  {
    DistinctParts(a, b);
    UpsertedConcat(blank, rows, a, b);
    if Touches(b, k) {
      var i :| 0 <= i < |b| && b[i][Id] == k;
      UpsertedAt(blank, Upserted(blank, rows, a), b, i);
      assert b[i] in b;
      UpsertedElsewhere(blank, rows, a, k);
    } else {
      UpsertedElsewhere(blank, Upserted(blank, rows, a), b, k);
    }
  }

  lemma PartRefers(def: TableDef, rows: Rows, a: seq<Row>, b: seq<Row>, column: Column, parent: Rows)
    requires DistinctIds(a + b) && DistinctIds(a) && column in def.blank && IsRows(def, rows)
    requires IsRows(def, Upserted(def.blank, rows, a)) && IsRows(def, Upserted(def.blank, rows, a + b))
    requires RefersInto(rows, column, parent) && RefersInto(Upserted(def.blank, rows, a + b), column, parent)
    ensures RefersInto(Upserted(def.blank, rows, a), column, parent)
  {
    forall k | k in Upserted(def.blank, rows, a) ensures Upserted(def.blank, rows, a)[k][column] in parent {
      PartHolds(def.blank, rows, a, b, k);
    }
  }

  /** Rows with distinct keys upserted into a closed database that ends closed leave it closed after
      every row: within one table nothing needs the deferral either. */
  lemma PartIsClosed(schema: Schema, tenant: Value, db: Db, t: TableName, a: seq<Row>, b: seq<Row>)
    requires IsDb(schema, db) && Closed(schema, db) && t in db && DistinctIds(a + b)
    requires Statement(schema, tenant, db, t, a + b).Some?
    requires Closed(schema, Statement(schema, tenant, db, t, a + b).value)
    ensures Statement(schema, tenant, db, t, a).Some?
    ensures Closed(schema, Statement(schema, tenant, db, t, a).value)
  {
    StatementSplits(schema, tenant, db, t, a, b);
    DistinctParts(a, b);
    var full, part := Statement(schema, tenant, db, t, a + b).value, Statement(schema, tenant, db, t, a).value;
    forall r | r in schema.refs ensures Holds(schema, part, r) {
      assert IsReference(schema, r) && Holds(schema, full, r) && Holds(schema, db, r);
      PartHoldsReference(schema, tenant, db, t, a, b, r);
    }
  }

  lemma PartHoldsReference(
    schema: Schema, tenant: Value, db: Db, t: TableName, a: seq<Row>, b: seq<Row>, r: Reference)
    requires IsDb(schema, db) && t in db && DistinctIds(a + b) && DistinctIds(a) && r in schema.refs
    requires Statement(schema, tenant, db, t, a + b).Some? && Statement(schema, tenant, db, t, a).Some?
    requires Holds(schema, db, r) && Holds(schema, Statement(schema, tenant, db, t, a + b).value, r)
    ensures Holds(schema, Statement(schema, tenant, db, t, a).value, r)
  {
    assert IsReference(schema, r);
    var def := schema.defs[t];
    PutAllIsUpserted(def, tenant, db[t], a + b);
    PutAllIsUpserted(def, tenant, db[t], a);
    if r.child == t {
      PartRefers(def, db[t], a, b, r.column, db[r.parent]);
    } else if r.parent == t {
      forall k | k in db[t] ensures k in Upserted(def.blank, db[t], a) { UpsertedGrows(def.blank, db[t], a, k); }
    }
  }

  lemma BatchPrefixIsClosed(
    schema: Schema, tenant: Value, db: Db, t: TableName, rows: seq<Row>, size: nat, n: nat)
    requires IsDb(schema, db) && Closed(schema, db) && t in db && size > 0 && DistinctIds(rows) && n <= |rows|
    requires UpsertBatch(schema, tenant, db, t, rows, size).Some?
    requires Closed(schema, UpsertBatch(schema, tenant, db, t, rows, size).value)
    ensures Statement(schema, tenant, db, t, rows[..n]).Some?
    ensures Closed(schema, Statement(schema, tenant, db, t, rows[..n]).value)
  {
    ChunksDoNotMatter(schema, tenant, db, t, rows, size);
    assert rows == rows[..n] + rows[n..];
    PartIsClosed(schema, tenant, db, t, rows[..n], rows[n..]);
  }
}
